/** What activation demands of the transitions of each stage, counted edge by edge
    (asoud_erp/services/workflow_contract.py:34-102). */
module ActivationCounts {
  import opened Basics
  import opened Json
  import opened WorkflowContract

  /** How many transitions have a property. */
  function Count(transitions: seq<Edge>, p: Edge -> bool): nat {
    if transitions == [] then 0 else (if p(transitions[0]) then 1 else 0) + Count(transitions[1..], p)
  }

  /** The transitions that leave a stage. */
  function Exits(transitions: seq<Edge>, name: string): nat {
    Count(transitions, (e: Edge) => e.from == name)
  }

  function ExitsFor(transitions: seq<Edge>, name: string, action: string): nat {
    Count(transitions, (e: Edge) => e.from == name && ActionOf(e) == action)
  }

  function ExitsOn(transitions: seq<Edge>, name: string, result: bool): nat {
    Count(transitions, (e: Edge) => e.from == name && ResultOf(e) == Some(result))
  }

  /** The exits a stage needs. */
  predicate ExitsFit(kind: Kind, name: string, transitions: seq<Edge>) {
    match kind
    case StartKind => Exits(transitions, name) == 1
    case EndKind => Exits(transitions, name) == 0
    case ConditionKind =>
      && Exits(transitions, name) == 2
      && ExitsOn(transitions, name, true) == 1 && ExitsOn(transitions, name, false) == 1
    case UserTask => ActionsFit(name, transitions, "complete", "reject", "return")
    case Approval => ActionsFit(name, transitions, "approve", "reject", "return")
    case SystemAction => ActionsFit(name, transitions, "success", "error", "error")
    case Wait => false
  }

  /** One exit for the main action, at most one for each other and no more; or a single exit without any. */
  predicate ActionsFit(name: string, transitions: seq<Edge>, main: string, other: string, last: string) {
    var others := ExitsFor(transitions, name, other) + if last == other then 0 else ExitsFor(transitions, name, last);
    || (&& ExitsFor(transitions, name, main) == 1
        && ExitsFor(transitions, name, other) <= 1 && ExitsFor(transitions, name, last) <= 1
        && Exits(transitions, name) == 1 + others)
    || (Exits(transitions, name) == 1 && ExitsFor(transitions, name, "") == 1)
  }

  /* ---------- counting routes ---------- */

  lemma {:induction false} CountOutgoing(names: set<string>, transitions: seq<Edge>, name: string, p: Edge -> bool,
                                         q: Edge -> bool)
    requires forall e | e in transitions :: Inside(names, e)
    requires forall e :: q(e) <==> e.from == name && p(e)
    ensures Count(transitions, q) == Count(Outgoing(names, transitions, name), p)
  {
    if transitions != [] {
      assert transitions[0] in transitions;
      CountOutgoing(names, transitions[1..], name, p, q);
      var rest := Outgoing(names, transitions[1..], name);
      var first := transitions[0];
      if first.from == name {
        assert ([first] + rest)[1..] == rest;
        assert Outgoing(names, transitions, name) == [first] + rest;
      } else {
        assert Outgoing(names, transitions, name) == rest;
      }
    }
  }

  lemma {:induction false} CountAll(routes: seq<Edge>, p: Edge -> bool)
    requires forall e | e in routes :: p(e)
    ensures Count(routes, p) == |routes|
  {
    if routes != [] {
      assert routes[0] in routes;
      CountAll(routes[1..], p);
    }
  }

  lemma {:induction false} CountActions(routes: seq<Edge>, action: string, p: Edge -> bool)
    requires forall e :: p(e) <==> ActionOf(e) == action
    ensures Count(routes, p) == multiset(Actions(routes))[action]
  {
    if routes != [] {
      CountActions(routes[1..], action, p);
      assert Actions(routes) == [ActionOf(routes[0])] + Actions(routes[1..]);
    }
  }

  lemma {:induction false} CountResults(routes: seq<Edge>, p: Edge -> bool, q: Edge -> bool)
    requires forall e :: p(e) <==> ResultOf(e) == Some(true)
    requires forall e :: q(e) <==> ResultOf(e) == Some(false)
    ensures Count(routes, p) + Count(routes, q) <= |routes|
    ensures Count(routes, p) + Count(routes, q) == |routes| <==> EachHasResult(routes)
  {
    if routes != [] {
      CountResults(routes[1..], p, q);
      assert forall e :: e in routes <==> e == routes[0] || e in routes[1..];
    }
  }

  lemma ExitsAreRoutes(names: set<string>, transitions: seq<Edge>, name: string)
    requires forall e | e in transitions :: Inside(names, e)
    ensures Exits(transitions, name) == |Outgoing(names, transitions, name)|
  {
    CountOutgoing(names, transitions, name, e => true, (e: Edge) => e.from == name);
    CountAll(Outgoing(names, transitions, name), e => true);
  }

  lemma ActionsAreRoutes(names: set<string>, transitions: seq<Edge>, name: string, action: string)
    requires forall e | e in transitions :: Inside(names, e)
    ensures ExitsFor(transitions, name, action) == multiset(Actions(Outgoing(names, transitions, name)))[action]
  {
    CountOutgoing(names, transitions, name, e => ActionOf(e) == action,
                  (e: Edge) => e.from == name && ActionOf(e) == action);
    CountActions(Outgoing(names, transitions, name), action, e => ActionOf(e) == action);
  }

  /* ---------- the actions of a stage ---------- */

  lemma {:induction false} DistinctByCount(s: seq<string>)
    ensures Distinct(s) <==> forall a :: multiset(s)[a] <= 1
  {
    if s != [] {
      var rest := s[1..];
      assert s == [s[0]] + rest;
      DistinctByCount(rest);
      DistinctCons(s);
      assert multiset(s) == multiset{s[0]} + multiset(rest);
      assert s[0] in rest <==> multiset(rest)[s[0]] > 0;
      if forall a :: multiset(s)[a] <= 1 {
        assert multiset(s)[s[0]] <= 1;
        forall a ensures multiset(rest)[a] <= 1 {
          assert multiset(s)[a] <= 1;
        }
      }
    }
  }

  lemma DistinctCons(s: seq<string>)
    requires s != []
    ensures Distinct(s) <==> Distinct(s[1..]) && s[0] !in s[1..]
  {
    var rest := s[1..];
    assert forall i | 0 <= i < |rest| :: s[i + 1] == rest[i];
    if Distinct(rest) && s[0] !in rest {
      forall i, j | 0 <= i < j < |s| ensures s[i] != s[j] {
        assert s[j] == rest[j - 1];
      }
    }
  }

  predicate AllIn(s: seq<string>, words: set<string>) {
    forall a | a in s :: a in words
  }

  lemma AllInCons(s: seq<string>, words: set<string>)
    requires s != []
    ensures AllIn(s, words) <==> s[0] in words && AllIn(s[1..], words)
  {
    assert s == [s[0]] + s[1..];
  }

  lemma {:induction false} AllowedByCount(s: seq<string>, main: string, other: string, last: string)
    requires main != other && main != last && other != last
    ensures AllIn(s, {main, other, last})
       <==> multiset(s)[main] + multiset(s)[other] + multiset(s)[last] == |s|
    ensures multiset(s)[main] + multiset(s)[other] + multiset(s)[last] <= |s|
  {
    if s != [] {
      assert s == [s[0]] + s[1..];
      AllowedByCount(s[1..], main, other, last);
      AllInCons(s, {main, other, last});
    }
  }

  lemma SingleByCount(s: seq<string>)
    ensures s == [""] <==> |s| == 1 && multiset(s)[""] == 1
  {
    if |s| == 1 {
      assert s == [s[0]];
    }
  }

  /** Valid actions, by their numbers. */
  lemma ValidByCount(kind: Kind, s: seq<string>, main: string, other: string, last: string)
    requires main != other && main != last && other != last && main != ""
    requires MainAction(kind) == main && AllowedActions(kind) == {main, other, last}
    ensures ValidActions(kind, s) <==>
      || (&& multiset(s)[main] == 1 && multiset(s)[other] <= 1 && multiset(s)[last] <= 1
          && |s| == 1 + multiset(s)[other] + multiset(s)[last])
      || (|s| == 1 && multiset(s)[""] == 1)
  {
    DistinctByCount(s);
    AllowedByCount(s, main, other, last);
    SingleByCount(s);
    if multiset(s)[main] == 1 && |s| == 1 + multiset(s)[other] + multiset(s)[last] {
      forall a | a != main && a != other && a != last ensures multiset(s)[a] == 0 {
        assert a !in s;
      }
    }
  }

  lemma {:induction false} AllowedByCountOfTwo(s: seq<string>, main: string, other: string)
    requires main != other
    ensures AllIn(s, {main, other}) <==> multiset(s)[main] + multiset(s)[other] == |s|
    ensures multiset(s)[main] + multiset(s)[other] <= |s|
  {
    if s != [] {
      assert s == [s[0]] + s[1..];
      AllowedByCountOfTwo(s[1..], main, other);
      AllInCons(s, {main, other});
    }
  }

  lemma ValidByCountOfTwo(kind: Kind, s: seq<string>, main: string, other: string)
    requires main != other && main != "" && MainAction(kind) == main && AllowedActions(kind) == {main, other}
    ensures ValidActions(kind, s) <==>
      || (multiset(s)[main] == 1 && multiset(s)[other] <= 1 && |s| == 1 + multiset(s)[other])
      || (|s| == 1 && multiset(s)[""] == 1)
  {
    DistinctByCount(s);
    AllowedByCountOfTwo(s, main, other);
    SingleByCount(s);
    if multiset(s)[main] == 1 && |s| == 1 + multiset(s)[other] {
      forall a | a != main && a != other ensures multiset(s)[a] == 0 {
        assert a !in s;
      }
    }
  }

  /* ---------- the verdict on a stage ---------- */

  lemma ActionExits(kind: Kind, names: set<string>, transitions: seq<Edge>, name: string, main: string, other: string,
                    last: string)
    requires forall e | e in transitions :: Inside(names, e)
    requires MainAction(kind) == main && main != other && main != last && main != ""
    requires AllowedActions(kind) == {main, other, last}
    ensures ValidActions(kind, Actions(Outgoing(names, transitions, name)))
       <==> ActionsFit(name, transitions, main, other, last)
  {
    var actions := Actions(Outgoing(names, transitions, name));
    ExitsAreRoutes(names, transitions, name);
    ActionsAreRoutes(names, transitions, name, main);
    ActionsAreRoutes(names, transitions, name, other);
    ActionsAreRoutes(names, transitions, name, last);
    ActionsAreRoutes(names, transitions, name, "");
    if other == last {
      ValidByCountOfTwo(kind, actions, main, other);
    } else {
      ValidByCount(kind, actions, main, other, last);
    }
  }

  lemma ConditionExits(names: set<string>, transitions: seq<Edge>, name: string)
    requires forall e | e in transitions :: Inside(names, e)
    requires forall e | e in transitions && e.from == name :: e.condition.Obj?
    ensures ValidRoutes(ConditionKind, Outgoing(names, transitions, name))
       <==> ExitsFit(ConditionKind, name, transitions)
  {
    var routes := Outgoing(names, transitions, name);
    ExitsAreRoutes(names, transitions, name);
    OutgoingEdges(names, transitions, name);
    CountOutgoing(names, transitions, name, e => ResultOf(e) == Some(true),
                  (e: Edge) => e.from == name && ResultOf(e) == Some(true));
    CountOutgoing(names, transitions, name, e => ResultOf(e) == Some(false),
                  (e: Edge) => e.from == name && ResultOf(e) == Some(false));
    if |routes| == 2 {
      TwoResults(routes[0], routes[1], e => ResultOf(e) == Some(true), e => ResultOf(e) == Some(false));
      assert routes == [routes[0], routes[1]];
    }
  }

  lemma TwoResults(a: Edge, b: Edge, p: Edge -> bool, q: Edge -> bool)
    requires forall e :: p(e) <==> ResultOf(e) == Some(true)
    requires forall e :: q(e) <==> ResultOf(e) == Some(false)
    ensures Count([a, b], p) == 1 && Count([a, b], q) == 1
       <==> ResultOf(a).Some? && ResultOf(b).Some? && ResultOf(a) != ResultOf(b)
  {
    assert [a, b][1..] == [b] && [b][1..] == [];
    assert Count([b], p) == (if p(b) then 1 else 0) && Count([b], q) == (if q(b) then 1 else 0);
  }

  /** The routes of a stage are valid exactly when its exits fit, counted over all transitions. */
  lemma RoutesByCount(kind: Kind, names: set<string>, transitions: seq<Edge>, name: string)
    requires kind != Wait && forall e | e in transitions :: Inside(names, e)
    ensures ValidRoutes(kind, Outgoing(names, transitions, name))
       <==> (forall e | e in transitions && e.from == name :: e.condition.Obj?) && ExitsFit(kind, name, transitions)
  {
    OutgoingEdges(names, transitions, name);
    ExitsAreRoutes(names, transitions, name);
    assert (forall e | e in Outgoing(names, transitions, name) :: e.condition.Obj?)
      <==> forall e | e in transitions && e.from == name :: e.condition.Obj?;
    match kind
    case ConditionKind =>
      if forall e | e in transitions && e.from == name :: e.condition.Obj? {
        ConditionExits(names, transitions, name);
      }
    case UserTask => ActionExits(kind, names, transitions, name, "complete", "reject", "return");
    case Approval => ActionExits(kind, names, transitions, name, "approve", "reject", "return");
    case SystemAction => ActionExits(kind, names, transitions, name, "success", "error", "error");
    case _ =>
  }

  /** A workflow may be activated exactly when it has one Start and some End, every transition stays in it
      and holds an object, every stage is saved correctly, is no Wait and has the exits it needs, and
      every stage is reached from the Start and reaches an End. */
  lemma ActivatableByCount(stages: seq<Stage>, transitions: seq<Edge>)
    ensures Activatable(stages, transitions) <==>
      && OnlyOneOf(stages, StartKind) && (exists i :: IsOf(stages, EndKind, i))
      && (forall e | e in transitions :: Inside(Names(stages), e) && e.condition.Obj?)
      && (forall s | s in stages :: s.savedOk && s.kind != Wait && ExitsFit(s.kind, s.name, transitions))
      && WellConnected(stages, transitions)
  {
    var names := Names(stages);
    CountOfMeans(stages, StartKind);
    CountOfMeans(stages, EndKind);
    ActivatableInParts(stages, transitions);
    if forall e | e in transitions :: Inside(names, e) {
      StagesByCount(stages, transitions);
    }
  }

  lemma StagesByCount(stages: seq<Stage>, transitions: seq<Edge>)
    requires forall e | e in transitions :: Inside(Names(stages), e)
    ensures StagesOk(stages, transitions) <==>
      && (forall e | e in transitions :: e.condition.Obj?)
      && (forall s | s in stages :: s.savedOk && s.kind != Wait && ExitsFit(s.kind, s.name, transitions))
  {
    var names := Names(stages);
    forall s | s in stages && s.kind != Wait
      ensures StageOk(s, names, transitions)
         <==> s.savedOk && (forall e | e in transitions && e.from == s.name :: e.condition.Obj?)
              && ExitsFit(s.kind, s.name, transitions)
    {
      RoutesByCount(s.kind, names, transitions, s.name);
    }
    ObjectsByStage(stages, transitions);
    StagesOkEach(stages, transitions);
  }

  lemma ObjectsByStage(stages: seq<Stage>, transitions: seq<Edge>)
    requires forall e | e in transitions :: Inside(Names(stages), e)
    ensures (forall e | e in transitions :: e.condition.Obj?)
       <==> forall s | s in stages :: forall e | e in transitions && e.from == s.name :: e.condition.Obj?
  {
    if forall s | s in stages :: forall e | e in transitions && e.from == s.name :: e.condition.Obj? {
      forall e | e in transitions ensures e.condition.Obj? {
        var s :| s in stages && s.name == e.from;
      }
    }
  }

  /* ---------- what a transition says ---------- */

  /** A text in lower case is a given small word exactly when it is that word, letter by letter, in small or
      capital letters. */
  lemma LowerSpells(s: string, word: string)
    requires forall i | 0 <= i < |word| :: 'a' <= word[i] <= 'z'
    ensures Lower(s) == word <==>
      |s| == |word| && forall i | 0 <= i < |s| :: s[i] == word[i] || s[i] as int + 32 == word[i] as int
  {
    if |s| == |word| && forall i | 0 <= i < |s| :: s[i] == word[i] || s[i] as int + 32 == word[i] as int {
      forall i | 0 <= i < |s| ensures Lower(s)[i] == word[i] {
      }
    }
    if Lower(s) == word {
      forall i | 0 <= i < |s| ensures s[i] == word[i] || s[i] as int + 32 == word[i] as int {
        assert Lower(s)[i] == word[i];
      }
    }
  }

  /** Values that count as no action. */
  predicate SaysNothing(v: Value) {
    v in {Null, Str(""), Bool(false), Number(0), Arr([]), Obj([])}
  }

  /** The action of a transition is the text of its condition's action, or its label if there is none. Any
      other value is no action of any stage. */
  lemma ActionMeans(e: Edge)
    requires e.condition.Obj?
    ensures var action := Lookup(e.condition.fields, "action");
      if action == None || SaysNothing(action.value) then ActionOf(e) == Lower(e.title)
      else if action.value.Str? then ActionOf(e) == Lower(action.value.text)
      else ActionOf(e) !in {"", "complete", "approve", "reject", "return", "success", "error"}
  {
  }

  /** The result of a transition is the truth value that its condition holds. */
  lemma ResultMeans(e: Edge, b: bool)
    ensures ResultOf(e) == Some(b) <==> e.condition.Obj? && Lookup(e.condition.fields, "result") == Some(Bool(b))
  {
  }

  predicate IsOf(stages: seq<Stage>, kind: Kind, i: int) {
    0 <= i < |stages| && stages[i].kind == kind
  }

  ghost predicate OnlyAt(stages: seq<Stage>, kind: Kind, i: int) {
    IsOf(stages, kind, i) && forall j | IsOf(stages, kind, j) :: j == i
  }

  ghost predicate OnlyOneOf(stages: seq<Stage>, kind: Kind) {
    exists i :: OnlyAt(stages, kind, i)
  }

  /** No stage of a kind, or exactly one, by their places in the list. */
  lemma {:induction false} CountOfMeans(stages: seq<Stage>, kind: Kind)
    ensures CountOf(stages, kind) == 0 <==> forall i :: !IsOf(stages, kind, i)
    ensures CountOf(stages, kind) == 1 <==> OnlyOneOf(stages, kind)
  {
    if stages != [] {
      var rest := stages[1..];
      CountOfMeans(rest, kind);
      assert forall i | i > 0 :: IsOf(stages, kind, i) <==> IsOf(rest, kind, i - 1);
      if stages[0].kind == kind {
        assert IsOf(stages, kind, 0);
        OneMoreOf(stages, kind);
      } else {
        SameOf(stages, kind);
      }
    }
  }

  lemma OneMoreOf(stages: seq<Stage>, kind: Kind)
    requires stages != [] && stages[0].kind == kind
    ensures OnlyOneOf(stages, kind) <==> forall i :: !IsOf(stages[1..], kind, i)
  {
    assert IsOf(stages, kind, 0);
    if i :| IsOf(stages[1..], kind, i) {
      InRest(stages, kind, i);
    } else {
      forall i | IsOf(stages, kind, i) ensures i == 0 {
        assert i != 0 ==> IsOf(stages[1..], kind, i - 1);
      }
      assert OnlyAt(stages, kind, 0);
    }
  }

  lemma SameOf(stages: seq<Stage>, kind: Kind)
    requires stages != [] && stages[0].kind != kind
    ensures OnlyOneOf(stages, kind) <==> OnlyOneOf(stages[1..], kind)
    ensures (forall i :: !IsOf(stages, kind, i)) <==> (forall i :: !IsOf(stages[1..], kind, i))
  {
    if OnlyOneOf(stages, kind) {
      OnlyOneInRest(stages, kind);
    }
    if OnlyOneOf(stages[1..], kind) {
      OnlyOneWithRest(stages, kind);
    }
    if i :| IsOf(stages, kind, i) {
      assert IsOf(stages[1..], kind, i - 1);
    }
    if i :| IsOf(stages[1..], kind, i) {
      assert IsOf(stages, kind, i + 1);
    }
  }

  lemma OnlyOneInRest(stages: seq<Stage>, kind: Kind)
    requires stages != [] && stages[0].kind != kind && OnlyOneOf(stages, kind)
    ensures OnlyOneOf(stages[1..], kind)
  {
    var i :| OnlyAt(stages, kind, i);
    var rest := stages[1..];
    forall j ensures IsOf(rest, kind, j) ==> j == i - 1 {
      if IsOf(rest, kind, j) {
        InRest(stages, kind, j);
      }
    }
    assert OnlyAt(rest, kind, i - 1);
  }

  lemma InRest(stages: seq<Stage>, kind: Kind, j: int)
    requires stages != [] && IsOf(stages[1..], kind, j)
    ensures IsOf(stages, kind, j + 1)
  {
  }

  lemma OnlyOneWithRest(stages: seq<Stage>, kind: Kind)
    requires stages != [] && stages[0].kind != kind && OnlyOneOf(stages[1..], kind)
    ensures OnlyOneOf(stages, kind)
  {
    var i :| OnlyAt(stages[1..], kind, i);
    forall j | IsOf(stages, kind, j) ensures j == i + 1 {
      assert IsOf(stages[1..], kind, j - 1);
    }
    assert OnlyAt(stages, kind, i + 1);
  }
}
