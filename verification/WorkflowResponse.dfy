/** Which fields of a form response are visible, and what of it is stored
    (asoud_erp/services/workflow_response.py:79-98, 118-138). */
module WorkflowResponse {
  import opened Basics
  import opened Json
  import opened Renamings
  import opened Paths

  /** What a rule asks of the field it refers to. */
  datatype Test = AnyOf(values: seq<Value>) | Equals(value: Value)

  datatype Rule = Always | When(field: string, test: Test)

  type Definitions = map<string, Rule>
  type Response = map<string, Value>

  predicate Accepts(test: Test, actual: Value) {
    match test
    case AnyOf(values) => actual in values
    case Equals(value) => actual == value
  }

  function Get(raw: Response, key: string): Value {
    if key in raw then raw[key] else Null
  }

  predicate IsVisible(rule: Rule, view: Response) {
    match rule
    case Always => true
    case When(field, test) => Accepts(test, Get(view, field))
  }

  /** A field not judged yet counts as visible. */
  predicate Shown(visible: map<string, bool>, key: string) {
    key in visible ==> visible[key]
  }

  /** The response as the rules see it: hidden fields are unset. */
  function View(defs: Definitions, raw: Response, visible: map<string, bool>): Response {
    map key | key in defs :: if Shown(visible, key) then Get(raw, key) else Null
  }

  /** A field is visible exactly when its rule holds, with hidden fields read as unset. */
  ghost predicate Consistent(defs: Definitions, raw: Response, visible: map<string, bool>) {
    && visible.Keys == defs.Keys
    && forall key | key in defs :: visible[key] <==> IsVisible(defs[key], View(defs, raw, visible))
  }

  /* ---------- one verdict ---------- */

  predicate Refers(defs: Definitions, key: string) {
    key in defs && defs[key].When? && defs[key].field in defs
  }

  /** The verdict on a rule, given whether the field it refers to is shown. */
  predicate Verdict(defs: Definitions, raw: Response, key: string, refShown: bool)
    requires key in defs
  {
    match defs[key]
    case Always => true
    case When(field, test) => Accepts(test, if field in defs && refShown then Get(raw, field) else Null)
  }

  lemma VerdictOnView(defs: Definitions, raw: Response, visible: map<string, bool>, key: string)
    requires key in defs
    ensures IsVisible(defs[key], View(defs, raw, visible))
        <==> Verdict(defs, raw, key, defs[key].When? && Shown(visible, defs[key].field))
  {
  }

  /** The verdict on a key after i rounds. */
  ghost predicate At(defs: Definitions, raw: Response, i: nat, key: string) {
    i == 0 || key !in defs || Verdict(defs, raw, key, defs[key].When? && At(defs, raw, i - 1, defs[key].field))
  }

  ghost predicate IsRound(defs: Definitions, raw: Response, i: nat, visible: map<string, bool>) {
    && (if i == 0 then visible == map[] else visible.Keys == defs.Keys)
    && forall key | key in defs :: Shown(visible, key) <==> At(defs, raw, i, key)
  }

  /* ---------- references ---------- */

  ghost function References(defs: Definitions): Graph<string> {
    set key | key in defs && Refers(defs, key) :: (key, defs[key].field)
  }

  /** Whether hiding the field referred to changes the verdict on this rule. */
  predicate Sensitive(defs: Definitions, raw: Response, key: string) {
    Refers(defs, key) && Verdict(defs, raw, key, true) != Verdict(defs, raw, key, false)
  }

  ghost function Dependencies(defs: Definitions, raw: Response): Graph<string> {
    set key | key in defs && Sensitive(defs, raw, key) :: (key, defs[key].field)
  }

  /** On a cycle of rules that all depend on visibility, each accepts the value that was sent. */
  ghost predicate CyclesAgree(defs: Definitions, raw: Response) {
    forall key | ReachesVia(Dependencies(defs, raw), key, key) :: key in defs && Verdict(defs, raw, key, true)
  }

  /** The field that a key on a cycle refers to is on a cycle. */
  lemma CycleGoesOn(defs: Definitions, raw: Response, key: string)
    requires ReachesVia(Dependencies(defs, raw), key, key)
    ensures Sensitive(defs, raw, key) && ReachesVia(Dependencies(defs, raw), defs[key].field, defs[key].field)
  {
    var g := Dependencies(defs, raw);
    var p :| PathBetween(g, p, key, key) && |p| >= 2;
    assert (p[0], p[1]) in g;
    assert PathBetween(g, p[1..] + [p[1]], p[1], p[1]);
  }

  /* ---------- when the rounds converge ---------- */

  /** The keys whose verdict no longer changes after i rounds. */
  ghost function Settled(defs: Definitions, raw: Response, i: nat): (s: set<string>)
    ensures s <= defs.Keys
  {
    if i == 0 then set key | key in defs && ReachesVia(Dependencies(defs, raw), key, key)
    else set key | key in defs && (Sensitive(defs, raw, key) ==> defs[key].field in Settled(defs, raw, i - 1))
  }

  lemma {:induction false} SettledGrows(defs: Definitions, raw: Response, i: nat)
    ensures Settled(defs, raw, i) <= Settled(defs, raw, i + 1)
  {
    if i == 0 {
      forall key | key in Settled(defs, raw, 0) ensures key in Settled(defs, raw, 1) {
        CycleGoesOn(defs, raw, key);
      }
    } else {
      SettledGrows(defs, raw, i - 1);
    }
  }

  lemma {:induction false} CyclesAreSettled(defs: Definitions, raw: Response, i: nat)
    ensures Settled(defs, raw, 0) <= Settled(defs, raw, i)
  {
    if i > 0 {
      CyclesAreSettled(defs, raw, i - 1);
      SettledGrows(defs, raw, i - 1);
    }
  }

  /** A round that settles nothing new has settled everything. */
  lemma NothingLeft(defs: Definitions, raw: Response, i: nat)
    requires Settled(defs, raw, i + 1) == Settled(defs, raw, i)
    ensures Settled(defs, raw, i) == defs.Keys
  {
    var settled := Settled(defs, raw, i);
    if y0 :| y0 in defs.Keys && y0 !in settled {
      var t := defs.Keys - settled;
      var g := Dependencies(defs, raw);
      forall y | y in t ensures HasSuccessor(g, t, y) {
        assert y !in Settled(defs, raw, i + 1);
        assert defs[y].field in t && (y, defs[y].field) in g;
      }
      var x := NoSinkMeansCycle(g, t, [y0]);
      CycleGoesOn(defs, raw, x);
      CyclesAreSettled(defs, raw, i);
      assert false;
    }
  }

  lemma {:induction false} SettledCount(defs: Definitions, raw: Response, i: nat)
    ensures Settled(defs, raw, i) == defs.Keys || |Settled(defs, raw, i)| >= i
  {
    if i > 0 {
      SettledCount(defs, raw, i - 1);
      SettledGrows(defs, raw, i - 1);
      SubsetSize(Settled(defs, raw, i - 1), Settled(defs, raw, i));
      if Settled(defs, raw, i) == Settled(defs, raw, i - 1) {
        NothingLeft(defs, raw, i - 1);
      }
    }
  }

  /** Every round settles a further field, so that n rounds settle all n of them. */
  lemma AllSettled(defs: Definitions, raw: Response)
    ensures Settled(defs, raw, |defs|) == defs.Keys
  {
    SettledCount(defs, raw, |defs|);
    SubsetSize(Settled(defs, raw, |defs|), defs.Keys);
    assert |defs| == |defs.Keys|;
  }

  lemma {:induction false} SettledStays(defs: Definitions, raw: Response, i: nat)
    requires CyclesAgree(defs, raw)
    ensures forall key | key in Settled(defs, raw, i) :: At(defs, raw, i, key) == At(defs, raw, i + 1, key)
  {
    if i == 0 {
      forall key | key in Settled(defs, raw, 0) ensures At(defs, raw, 1, key) {
        CycleGoesOn(defs, raw, key);
      }
    } else {
      SettledStays(defs, raw, i - 1);
    }
  }

  lemma RoundsConverge(defs: Definitions, raw: Response)
    requires CyclesAgree(defs, raw)
    ensures Stable(defs, raw, |defs| + 1)
  {
    var n := |defs|;
    AllSettled(defs, raw);
    SettledStays(defs, raw, n);
    forall key | key in defs ensures At(defs, raw, n + 1, key) == At(defs, raw, n + 2, key) {
      if defs[key].When? && defs[key].field in defs {
        assert defs[key].field in Settled(defs, raw, n);
      }
    }
  }

  /** The round after this one changes nothing. */
  ghost predicate Stable(defs: Definitions, raw: Response, i: nat) {
    forall key | key in defs :: At(defs, raw, i, key) == At(defs, raw, i + 1, key)
  }

  lemma StableIsConsistent(defs: Definitions, raw: Response, i: nat, visible: map<string, bool>)
    requires IsRound(defs, raw, i, visible) && visible.Keys == defs.Keys
    ensures Consistent(defs, raw, visible) <==> Stable(defs, raw, i)
  {
    forall key | key in defs
      ensures IsVisible(defs[key], View(defs, raw, visible)) == At(defs, raw, i + 1, key)
    {
      VerdictOnView(defs, raw, visible, key);
    }
  }

  lemma {:induction false} StableStays(defs: Definitions, raw: Response, i: nat, n: nat)
    requires i <= n && Stable(defs, raw, i)
    ensures Stable(defs, raw, n) && forall key | key in defs :: At(defs, raw, i, key) == At(defs, raw, n, key)
  {
    if i < n {
      StableStays(defs, raw, i, n - 1);
    }
  }

  /* ---------- when they do not ---------- */

  ghost predicate HasDependent(defs: Definitions, raw: Response, cycle: set<string>, y: string) {
    exists x :: x in cycle && Sensitive(defs, raw, x) && defs[x].field == y
  }

  /** On a set of keys each of which another one depends on, the rounds lose no information: if
      two rounds agree there, so do all the rounds before. */
  lemma {:induction false} RoundsAgreedBefore(defs: Definitions, raw: Response, cycle: set<string>, i: nat)
    requires forall y | y in cycle :: HasDependent(defs, raw, cycle, y)
    requires forall x | x in cycle :: At(defs, raw, i, x) == At(defs, raw, i + 1, x)
    ensures forall x | x in cycle :: At(defs, raw, 0, x) == At(defs, raw, 1, x)
  {
    if i > 0 {
      forall y | y in cycle ensures At(defs, raw, i - 1, y) == At(defs, raw, i, y) {
        assert HasDependent(defs, raw, cycle, y);
        var x :| x in cycle && Sensitive(defs, raw, x) && defs[x].field == y;
        assert At(defs, raw, i, x) == At(defs, raw, i + 1, x);
      }
      RoundsAgreedBefore(defs, raw, cycle, i - 1);
    }
  }

  lemma CycleIsCovered(defs: Definitions, raw: Response, key: string, p: seq<string>, cycle: set<string>)
    requires PathBetween(Dependencies(defs, raw), p, key, key) && |p| >= 2
    requires forall x :: x in cycle <==> x in p
    ensures forall y | y in cycle :: HasDependent(defs, raw, cycle, y) && y in defs
  {
    var g := Dependencies(defs, raw);
    forall y | y in cycle ensures HasDependent(defs, raw, cycle, y) && y in defs {
      var j :| 0 <= j < |p| && p[j] == y;
      var k := if j == 0 then |p| - 2 else j - 1;
      assert (p[k], p[k + 1]) in g && p[k] in p;
    }
  }

  lemma AgreesOnCycle(defs: Definitions, raw: Response, i: nat, key: string, p: seq<string>)
    requires Stable(defs, raw, i)
    requires PathBetween(Dependencies(defs, raw), p, key, key) && |p| >= 2
    ensures key in defs && Verdict(defs, raw, key, true)
  {
    assert (p[0], p[1]) in Dependencies(defs, raw);
    var cycle := set x | x in p;
    CycleIsCovered(defs, raw, key, p, cycle);
    RoundsAgreedBefore(defs, raw, cycle, i);
    assert key in p && key in cycle;
    assert At(defs, raw, 0, key) && At(defs, raw, 0, defs[key].field);
  }

  lemma ConvergenceMeansAgreement(defs: Definitions, raw: Response, i: nat)
    requires Stable(defs, raw, i)
    ensures CyclesAgree(defs, raw)
  {
    var g := Dependencies(defs, raw);
    forall key | ReachesVia(g, key, key) ensures key in defs && Verdict(defs, raw, key, true) {
      var p :| PathBetween(g, p, key, key) && |p| >= 2;
      AgreesOnCycle(defs, raw, i, key, p);
    }
  }

  /* ---------- the loop ---------- */

  /** The rounds of `_visibility`. What they end in is consistent exactly when no cycle of rules
      turns against itself. */
  method Visibility(defs: Definitions, raw: Response) returns (visible: map<string, bool>)
    ensures visible.Keys == defs.Keys && IsRound(defs, raw, |defs| + 1, visible)
    ensures Consistent(defs, raw, visible) <==> CyclesAgree(defs, raw)
  {
    visible := map[];
    for r := 0 to |defs| + 1
      invariant IsRound(defs, raw, r, visible)
    {
      var view := View(defs, raw, visible);
      var current := map key | key in defs :: IsVisible(defs[key], view);
      NextRound(defs, raw, r, visible, current);
      if current == visible {
        StopsHere(defs, raw, r, visible);
        break;
      }
      visible := current;
    }
    LastRoundDecides(defs, raw, visible);
  }

  lemma LastRoundDecides(defs: Definitions, raw: Response, visible: map<string, bool>)
    requires visible.Keys == defs.Keys && IsRound(defs, raw, |defs| + 1, visible)
    ensures Consistent(defs, raw, visible) <==> CyclesAgree(defs, raw)
  {
    StableIsConsistent(defs, raw, |defs| + 1, visible);
    if CyclesAgree(defs, raw) {
      RoundsConverge(defs, raw);
    } else if Stable(defs, raw, |defs| + 1) {
      ConvergenceMeansAgreement(defs, raw, |defs| + 1);
    }
  }

  lemma StopsHere(defs: Definitions, raw: Response, r: nat, visible: map<string, bool>)
    requires r <= |defs| && IsRound(defs, raw, r, visible) && Stable(defs, raw, r) && visible.Keys == defs.Keys
    ensures IsRound(defs, raw, |defs| + 1, visible)
  {
    StableStays(defs, raw, r, |defs| + 1);
  }

  lemma NextRound(defs: Definitions, raw: Response, r: nat, visible: map<string, bool>, current: map<string, bool>)
    requires IsRound(defs, raw, r, visible) && current.Keys == defs.Keys
    requires forall key | key in defs :: current[key] == IsVisible(defs[key], View(defs, raw, visible))
    ensures IsRound(defs, raw, r + 1, current)
    ensures current == visible ==> Stable(defs, raw, r)
  {
    forall key | key in defs ensures current[key] == At(defs, raw, r + 1, key) {
      VerdictOnView(defs, raw, visible, key);
    }
  }

  /* ---------- what consistency fixes ---------- */

  lemma AcyclicReferences(defs: Definitions, raw: Response)
    requires Acyclic(References(defs))
    ensures Acyclic(Dependencies(defs, raw)) && CyclesAgree(defs, raw)
  {
    SubgraphAcyclic(References(defs), Dependencies(defs, raw));
  }

  lemma {:induction false} AgreeOnSettled(defs: Definitions, raw: Response, a: map<string, bool>,
                                          b: map<string, bool>, i: nat)
    requires Acyclic(Dependencies(defs, raw))
    requires Consistent(defs, raw, a) && Consistent(defs, raw, b)
    ensures forall key | key in Settled(defs, raw, i) :: a[key] == b[key]
  {
    if i > 0 {
      AgreeOnSettled(defs, raw, a, b, i - 1);
      forall key | key in Settled(defs, raw, i) ensures a[key] == b[key] {
        VerdictOnView(defs, raw, a, key);
        VerdictOnView(defs, raw, b, key);
      }
    }
  }

  /** Without reference cycles there is exactly one consistent assignment, and the rounds find it. */
  lemma VisibilityIsUnique(defs: Definitions, raw: Response, found: map<string, bool>, visible: map<string, bool>)
    requires Acyclic(References(defs))
    requires found.Keys == defs.Keys && IsRound(defs, raw, |defs| + 1, found)
    ensures Consistent(defs, raw, visible) <==> visible == found
  {
    AcyclicReferences(defs, raw);
    RoundsConverge(defs, raw);
    StableIsConsistent(defs, raw, |defs| + 1, found);
    if Consistent(defs, raw, visible) {
      AgreeOnSettled(defs, raw, visible, found, |defs|);
      AllSettled(defs, raw);
    }
  }

  /** A rule as the stage editor saves it: it never asks for an unset field. */
  ghost predicate AsksForAValue(rule: Rule) {
    rule.When? ==> !Accepts(rule.test, Null)
  }

  /** The editor lets rules refer to each other in a ring. With the rules it saves, the rounds still
      end in a consistent assignment, and it shows every field that any consistent one shows. */
  lemma SavedRulesConverge(defs: Definitions, raw: Response, found: map<string, bool>)
    requires forall key | key in defs :: AsksForAValue(defs[key])
    requires found.Keys == defs.Keys && IsRound(defs, raw, |defs| + 1, found)
    ensures Consistent(defs, raw, found)
    ensures forall other, key | Consistent(defs, raw, other) && key in defs && other[key] :: found[key]
  {
    forall key | ReachesVia(Dependencies(defs, raw), key, key) ensures key in defs && Verdict(defs, raw, key, true) {
      CycleGoesOn(defs, raw, key);
    }
    RoundsConverge(defs, raw);
    StableIsConsistent(defs, raw, |defs| + 1, found);
    forall other, key | Consistent(defs, raw, other) && key in defs && other[key] ensures found[key] {
      RoundsStayAbove(defs, raw, other, raw, |defs| + 1);
    }
  }

  /** Two responses with the same values where this assignment shows a field. */
  ghost predicate AgreeOnShown(defs: Definitions, visible: map<string, bool>, raw: Response, other: Response)
    requires visible.Keys == defs.Keys
  {
    forall key | key in defs && visible[key] :: Get(raw, key) == Get(other, key)
  }

  /** What a consistent assignment shows, the rounds show, also for other values of hidden fields. */
  lemma {:induction false} RoundsStayAbove(defs: Definitions, raw: Response, visible: map<string, bool>,
                                           other: Response, i: nat)
    requires forall key | key in defs :: AsksForAValue(defs[key])
    requires Consistent(defs, raw, visible) && AgreeOnShown(defs, visible, raw, other)
    ensures forall key | key in defs && visible[key] :: At(defs, other, i, key)
  {
    if i > 0 {
      RoundsStayAbove(defs, raw, visible, other, i - 1);
      forall key | key in defs && visible[key] ensures At(defs, other, i, key) {
        VerdictOnView(defs, raw, visible, key);
      }
    }
  }

  /* ---------- hidden values ---------- */

  /** Whatever is sent for the hidden fields, the same fields are shown. */
  ghost predicate HiddenNeverMatter(defs: Definitions, raw: Response, found: map<string, bool>)
    requires found.Keys == defs.Keys
  {
    forall other: Response, otherFound: map<string, bool>
      | otherFound.Keys == defs.Keys && IsRound(defs, other, |defs| + 1, otherFound)
        && AgreeOnShown(defs, found, raw, other) :: otherFound == found
  }

  /** Without references in a ring they never matter. */
  lemma AcyclicHidesSafely(defs: Definitions, raw: Response, found: map<string, bool>)
    requires Acyclic(References(defs)) && found.Keys == defs.Keys && IsRound(defs, raw, |defs| + 1, found)
    ensures HiddenNeverMatter(defs, raw, found)
  {
    VisibilityIsUnique(defs, raw, found, found);
    forall other: Response, otherFound: map<string, bool>
      | otherFound.Keys == defs.Keys && IsRound(defs, other, |defs| + 1, otherFound)
        && AgreeOnShown(defs, found, raw, other)
      ensures otherFound == found
    {
      assert View(defs, raw, found) == View(defs, other, found);
      VisibilityIsUnique(defs, other, otherFound, found);
    }
  }

  /** A rule as the stage editor saves it: it asks for a value, and some value satisfies it. */
  ghost predicate AsSaved(rule: Rule) {
    AsksForAValue(rule) && (rule.When? && rule.test.AnyOf? ==> rule.test.values != [])
  }

  ghost predicate AllSaved(defs: Definitions) {
    forall key | key in defs :: AsSaved(defs[key])
  }

  /** Every field on a ring of references is shown. */
  ghost predicate RingsShown(defs: Definitions, found: map<string, bool>) {
    forall key | ReachesVia(References(defs), key, key) :: key in found && found[key]
  }

  /** A field with a saved rule is shown only if the field it refers to is. */
  lemma ShownGoesOn(defs: Definitions, raw: Response, found: map<string, bool>, key: string)
    requires AllSaved(defs) && Consistent(defs, raw, found) && key in defs && defs[key].When? && found[key]
    ensures Refers(defs, key) && found[defs[key].field] && Accepts(defs[key].test, Get(raw, defs[key].field))
  {
    VerdictOnView(defs, raw, found, key);
  }

  /** So a ring with one shown field is shown. */
  lemma {:induction false} ShownAlong(defs: Definitions, raw: Response, found: map<string, bool>, p: seq<string>)
    requires AllSaved(defs) && Consistent(defs, raw, found)
    requires IsPath(References(defs), p) && p[0] in defs && found[p[0]]
    ensures p[|p| - 1] in defs && found[p[|p| - 1]]
  {
    if |p| > 1 {
      assert (p[0], p[1]) in References(defs);
      ShownGoesOn(defs, raw, found, p[0]);
      ShownAlong(defs, raw, found, p[1..]);
    }
  }

  /** A field that only the other response shows refers to such a field. */
  lemma OnlyOtherShowsGoesOn(defs: Definitions, raw: Response, found: map<string, bool>,
                             other: Response, otherFound: map<string, bool>, key: string)
    requires AllSaved(defs) && Consistent(defs, raw, found) && Consistent(defs, other, otherFound)
    requires AgreeOnShown(defs, found, raw, other) && key in defs && otherFound[key] && !found[key]
    ensures Refers(defs, key) && otherFound[defs[key].field] && !found[defs[key].field]
  {
    VerdictOnView(defs, raw, found, key);
    ShownGoesOn(defs, other, otherFound, key);
  }

  lemma OnlyOtherShowsRing(defs: Definitions, raw: Response, found: map<string, bool>,
                           other: Response, otherFound: map<string, bool>, first: string)
    requires AllSaved(defs) && Consistent(defs, raw, found) && Consistent(defs, other, otherFound)
    requires AgreeOnShown(defs, found, raw, other) && first in defs && otherFound[first] && !found[first]
    ensures !RingsShown(defs, found)
  {
    var t := set key | key in defs && otherFound[key] && !found[key];
    forall key | key in t ensures HasSuccessor(References(defs), t, key) {
      OnlyOtherShowsGoesOn(defs, raw, found, other, otherFound, key);
      assert (key, defs[key].field) in References(defs) && defs[key].field in t;
    }
    var x := NoSinkMeansCycle(References(defs), t, [first]);
    assert !found[x];
  }

  lemma SameWhereRingsAreShown(defs: Definitions, raw: Response, found: map<string, bool>,
                               other: Response, otherFound: map<string, bool>)
    requires AllSaved(defs) && RingsShown(defs, found)
    requires Consistent(defs, raw, found) && Consistent(defs, other, otherFound)
    requires IsRound(defs, other, |defs| + 1, otherFound) && AgreeOnShown(defs, found, raw, other)
    ensures otherFound == found
  {
    RoundsStayAbove(defs, raw, found, other, |defs| + 1);
    forall key | key in defs ensures otherFound[key] == found[key] {
      if otherFound[key] && !found[key] {
        OnlyOtherShowsRing(defs, raw, found, other, otherFound, key);
      }
    }
  }

  function Satisfying(test: Test): (v: Value)
    requires test.AnyOf? ==> test.values != []
    ensures Accepts(test, v)
  {
    match test
    case AnyOf(values) => values[0]
    case Equals(value) => value
  }

  ghost predicate HiddenOnRing(defs: Definitions, found: map<string, bool>, ring: set<string>, x: string) {
    Refers(defs, x) && defs[x].field in ring && x in found && !found[x]
  }

  ghost predicate HasReferrer(defs: Definitions, ring: set<string>, y: string) {
    exists x :: x in ring && Refers(defs, x) && defs[x].field == y
  }

  /** A set of hidden fields, each referring to one of it and each referred to by one. */
  ghost predicate HiddenRing(defs: Definitions, found: map<string, bool>, ring: set<string>) {
    && (forall x {:trigger HiddenOnRing(defs, found, ring, x)} | x in ring :: HiddenOnRing(defs, found, ring, x))
    && (forall y {:trigger HasReferrer(defs, ring, y)} | y in ring :: HasReferrer(defs, ring, y))
  }

  lemma RingIsHidden(defs: Definitions, raw: Response, found: map<string, bool>, p: seq<string>, ring: set<string>)
    requires AllSaved(defs) && Consistent(defs, raw, found) && |p| >= 2
    requires PathBetween(References(defs), p, p[0], p[0]) && p[0] in defs && !found[p[0]]
    requires ring == set x | x in p
    ensures HiddenRing(defs, found, ring)
  {
    forall x | x in ring ensures HiddenOnRing(defs, found, ring, x) {
      var i :| 0 <= i < |p| && p[i] == x;
      var j := if i == |p| - 1 then 0 else i;
      assert (p[j], p[j + 1]) in References(defs) && p[j + 1] in p;
      if found[x] {
        ShownAlong(defs, raw, found, p[i..]);
      }
    }
    forall y | y in ring ensures HasReferrer(defs, ring, y) {
      var i :| 0 <= i < |p| && p[i] == y;
      var j := if i == 0 then |p| - 2 else i - 1;
      assert (p[j], p[j + 1]) in References(defs) && p[j] in p;
    }
  }

  function Next(defs: Definitions, ring: set<string>): map<string, string> {
    map x | x in ring && Refers(defs, x) :: defs[x].field
  }

  lemma RingIsClosed(defs: Definitions, found: map<string, bool>, ring: set<string>)
    requires HiddenRing(defs, found, ring)
    ensures Next(defs, ring).Keys == ring && Next(defs, ring).Values <= ring
  {
    forall x | x in ring ensures x in Next(defs, ring) && Next(defs, ring)[x] in ring {
      assert HiddenOnRing(defs, found, ring, x);
    }
  }

  lemma RingIsCovered(defs: Definitions, found: map<string, bool>, ring: set<string>)
    requires HiddenRing(defs, found, ring)
    ensures ring <= Next(defs, ring).Values
  {
    var next := Next(defs, ring);
    forall y | y in ring ensures y in next.Values {
      assert HasReferrer(defs, ring, y);
      var x :| x in ring && Refers(defs, x) && defs[x].field == y;
      assert x in next && next[x] == y;
    }
  }

  /** No two fields of the ring refer to the same one. */
  lemma RingIsOneToOne(defs: Definitions, found: map<string, bool>, ring: set<string>, x: string, y: string)
    requires HiddenRing(defs, found, ring) && x in ring && y in ring
    requires Refers(defs, x) && Refers(defs, y) && defs[x].field == defs[y].field
    ensures x == y
  {
    var next := Next(defs, ring);
    RingIsClosed(defs, found, ring);
    RingIsCovered(defs, found, ring);
    assert next.Values == ring == next.Keys;
    CountValues(next);
    assert x in next && y in next && next[x] == next[y];
  }

  /** What the rule of the ring that refers to this field asks for. */
  ghost function Wanted(defs: Definitions, ring: set<string>, y: string): Value {
    if x :| x in ring && Refers(defs, x) && defs[x].field == y && AsSaved(defs[x])
    then Satisfying(defs[x].test) else Null
  }

  /** The response that sends what the rules of the ring ask for. */
  ghost function Turned(defs: Definitions, raw: Response, ring: set<string>): Response {
    map y | y in raw.Keys + ring :: if y in ring then Wanted(defs, ring, y) else raw[y]
  }

  lemma TurnedAnswers(defs: Definitions, raw: Response, found: map<string, bool>, ring: set<string>, x: string)
    requires HiddenRing(defs, found, ring) && AllSaved(defs) && x in ring
    ensures Refers(defs, x) && defs[x].field in ring
    ensures Accepts(defs[x].test, Get(Turned(defs, raw, ring), defs[x].field))
  {
    assert HiddenOnRing(defs, found, ring, x);
    var y := defs[x].field;
    var z :| z in ring && Refers(defs, z) && defs[z].field == y && AsSaved(defs[z])
             && Wanted(defs, ring, y) == Satisfying(defs[z].test);
    RingIsOneToOne(defs, found, ring, x, z);
    assert Accepts(defs[z].test, Satisfying(defs[z].test));
    assert Get(Turned(defs, raw, ring), y) == Wanted(defs, ring, y);
  }

  lemma {:induction false} RingTurns(defs: Definitions, raw: Response, found: map<string, bool>, ring: set<string>,
                                     i: nat)
    requires HiddenRing(defs, found, ring) && AllSaved(defs)
    ensures forall x | x in ring :: At(defs, Turned(defs, raw, ring), i, x)
  {
    if i > 0 {
      RingTurns(defs, raw, found, ring, i - 1);
      forall x | x in ring ensures At(defs, Turned(defs, raw, ring), i, x) {
        TurnedAnswers(defs, raw, found, ring, x);
      }
    }
  }

  lemma TurnedKeepsShown(defs: Definitions, raw: Response, found: map<string, bool>, ring: set<string>)
    requires found.Keys == defs.Keys && HiddenRing(defs, found, ring)
    ensures AgreeOnShown(defs, found, raw, Turned(defs, raw, ring))
  {
    forall key | key in defs && found[key] ensures Get(raw, key) == Get(Turned(defs, raw, ring), key) {
      assert key in ring ==> HiddenOnRing(defs, found, ring, key);
    }
  }

  ghost function Rounds(defs: Definitions, raw: Response): (visible: map<string, bool>)
    ensures visible.Keys == defs.Keys && IsRound(defs, raw, |defs| + 1, visible)
  {
    map key | key in defs :: At(defs, raw, |defs| + 1, key)
  }

  /** A hidden ring is shown if its own rules are answered, so the fields of the ring do matter. */
  lemma HiddenRingMatters(defs: Definitions, raw: Response, found: map<string, bool>, ring: set<string>, x: string)
    requires AllSaved(defs) && found.Keys == defs.Keys && HiddenRing(defs, found, ring) && x in ring
    ensures !HiddenNeverMatter(defs, raw, found)
  {
    var other := Turned(defs, raw, ring);
    var otherFound := Rounds(defs, other);
    TurnedKeepsShown(defs, raw, found, ring);
    assert otherFound[x] && !found[x] by {
      RingTurns(defs, raw, found, ring, |defs| + 1);
      assert HiddenOnRing(defs, found, ring, x);
    }
  }

  /** With the rules the editor saves, hidden values never matter exactly when every ring is shown. */
  lemma RingsDecide(defs: Definitions, raw: Response, found: map<string, bool>)
    requires AllSaved(defs) && found.Keys == defs.Keys && IsRound(defs, raw, |defs| + 1, found)
    ensures HiddenNeverMatter(defs, raw, found) <==> RingsShown(defs, found)
  {
    SavedRulesConverge(defs, raw, found);
    if RingsShown(defs, found) {
      forall other: Response, otherFound: map<string, bool>
        | otherFound.Keys == defs.Keys && IsRound(defs, other, |defs| + 1, otherFound)
          && AgreeOnShown(defs, found, raw, other)
        ensures otherFound == found
      {
        SavedRulesConverge(defs, other, otherFound);
        SameWhereRingsAreShown(defs, raw, found, other, otherFound);
      }
    } else {
      var key :| ReachesVia(References(defs), key, key) && !(key in found && found[key]);
      var p :| PathBetween(References(defs), p, key, key) && |p| >= 2;
      assert (p[0], p[1]) in References(defs);
      var ring := set x | x in p;
      RingIsHidden(defs, raw, found, p, ring);
      HiddenRingMatters(defs, raw, found, ring, key);
    }
  }

  lemma SameFieldsShown(defs: Definitions, raw: Response, found: map<string, bool>,
                        other: Response, otherFound: map<string, bool>)
    requires found.Keys == otherFound.Keys == defs.Keys && AgreeOnShown(defs, found, raw, other)
    requires IsRound(defs, raw, |defs| + 1, found) && IsRound(defs, other, |defs| + 1, otherFound)
    requires Acyclic(References(defs)) || (AllSaved(defs) && RingsShown(defs, found))
    ensures otherFound == found
  {
    if Acyclic(References(defs)) {
      AcyclicHidesSafely(defs, raw, found);
    } else {
      RingsDecide(defs, raw, found);
    }
  }

  /** Two fields each shown while the other is unset: the rounds swing between both shown and both
      hidden, and what they end in is not consistent. */
  lemma RingOfUnsetRules(a: string, b: string, raw: Response)
    requires a != b && Get(raw, a) != Null && Get(raw, b) != Null
    ensures !CyclesAgree(map[a := When(b, Equals(Null)), b := When(a, Equals(Null))], raw)
  {
    var defs := map[a := When(b, Equals(Null)), b := When(a, Equals(Null))];
    var g := Dependencies(defs, raw);
    assert Sensitive(defs, raw, a) && Sensitive(defs, raw, b);
    assert (a, b) in g && (b, a) in g;
    assert PathBetween(g, [a, b, a], a, a);
  }

  /* ---------- the stored response ---------- */

  datatype FormField = FormField(auto: bool, required: bool, rule: Rule)

  type Form = map<string, FormField>

  /** The check and conversion of a value by its field type; None is the raised error. */
  type Cleaner = (string, Value) -> Option<Value>

  function RulesOf(form: Form): Definitions {
    map key | key in form :: form[key].rule
  }

  predicate Empty(v: Value) {
    v == Null || v == Str("") || v == Arr([])
  }

  /** A response names known fields only and, unless drafts are allowed to, sets no automatic one. */
  predicate Acceptable(form: Form, raw: Response, allowAuto: bool) {
    forall key | key in raw ::
      key in form && (allowAuto || !form[key].auto || raw[key] == Null || raw[key] == Str(""))
  }

  /** A response is refused for a field that is not there, or for an automatic field that a client who may
      not do so sends a value for. */
  lemma RefusedExactly(form: Form, raw: Response, allowAuto: bool)
    ensures !Acceptable(form, raw, allowAuto) <==>
      || (exists key :: key in raw && key !in form)
      || (!allowAuto && exists key :: key in raw && key in form && form[key].auto && raw[key] !in {Null, Str("")})
  {
  }

  function StoredValue(form: Form, clean: Cleaner, raw: Response, visible: map<string, bool>,
                       key: string): Option<Value>
    requires key in form
  {
    var value := Get(raw, key);
    if !Shown(visible, key) then Some(Null)
    else if Empty(value) then (if form[key].required then None else Some(Null))
    else clean(key, value)
  }

  /** The stored response: every field but the automatic ones, hidden ones unset. */
  ghost predicate IsStored(form: Form, clean: Cleaner, raw: Response, visible: map<string, bool>,
                           stored: Option<Response>) {
    if forall key | key in form && !form[key].auto :: StoredValue(form, clean, raw, visible, key).Some?
    then stored.Some? && IsStoredUpTo(form, clean, raw, visible, form.Keys, stored.value)
    else stored == None
  }

  ghost predicate IsStoredUpTo(form: Form, clean: Cleaner, raw: Response, visible: map<string, bool>,
                               done: set<string>, stored: Response)
    requires done <= form.Keys
  {
    && stored.Keys == (set key | key in done && !form[key].auto)
    && forall key | key in stored :: StoredValue(form, clean, raw, visible, key) == Some(stored[key])
  }

  method NormalizeFormResponse(form: Form, keys: seq<string>, clean: Cleaner, raw: Response, allowAuto: bool)
    returns (stored: Option<Response>, ghost visible: map<string, bool>)
    requires forall key :: key in keys <==> key in form
    ensures visible.Keys == form.Keys && IsRound(RulesOf(form), raw, |RulesOf(form)| + 1, visible)
    ensures Acceptable(form, raw, allowAuto) ==> IsStored(form, clean, raw, visible, stored)
    ensures !Acceptable(form, raw, allowAuto) ==> stored == None
  {
    var shown := Visibility(RulesOf(form), raw);
    visible := shown;
    stored := None;
    if Acceptable(form, raw, allowAuto) {
      stored := Store(form, keys, clean, raw, shown);
    }
  }

  /** The loop over the fields; `keys` are the keys of the form in its order. */
  method Store(form: Form, keys: seq<string>, clean: Cleaner, raw: Response, visible: map<string, bool>)
    returns (stored: Option<Response>)
    requires forall key :: key in keys <==> key in form
    ensures IsStored(form, clean, raw, visible, stored)
  {
    var result: Response := map[];
    ghost var done: set<string> := {};
    for i := 0 to |keys|
      invariant done <= form.Keys && forall j | 0 <= j < i :: keys[j] in done
      invariant IsStoredUpTo(form, clean, raw, visible, done, result)
    {
      var key := keys[i];
      assert key in keys;
      ghost var before := done;
      done := done + {key};
      if form[key].auto {
        StoreNothing(form, clean, raw, visible, before, result, key);
        continue;
      }
      var value := StoredValue(form, clean, raw, visible, key);
      if value == None {
        return None;
      }
      StoreOne(form, clean, raw, visible, before, result, key);
      result := result[key := value.value];
    }
    assert done == form.Keys;
    stored := Some(result);
  }

  lemma StoreNothing(form: Form, clean: Cleaner, raw: Response, visible: map<string, bool>, done: set<string>,
                     result: Response, key: string)
    requires done <= form.Keys && key in form && form[key].auto
    requires IsStoredUpTo(form, clean, raw, visible, done, result)
    ensures IsStoredUpTo(form, clean, raw, visible, done + {key}, result)
  {
  }

  lemma StoreOne(form: Form, clean: Cleaner, raw: Response, visible: map<string, bool>, done: set<string>,
                 result: Response, key: string)
    requires done <= form.Keys && key in form && !form[key].auto
    requires IsStoredUpTo(form, clean, raw, visible, done, result)
    requires StoredValue(form, clean, raw, visible, key).Some?
    ensures IsStoredUpTo(form, clean, raw, visible, done + {key},
                         result[key := StoredValue(form, clean, raw, visible, key).value])
  {
  }

  /** In a stored response every required field that is shown was answered, and what is stored for a field
      that is shown is its converted value, or nothing for no answer. */
  lemma StoredAnswers(form: Form, clean: Cleaner, raw: Response, visible: map<string, bool>, stored: Option<Response>,
                      key: string)
    requires IsStored(form, clean, raw, visible, stored) && stored.Some? && key in form && !form[key].auto
    requires key in visible && visible[key]
    ensures key in stored.value
    ensures var answer := if key in raw then raw[key] else Null;
      var empty := answer == Null || answer == Str("") || answer == Arr([]);
      && (form[key].required ==> !empty)
      && (if empty then stored.value[key] == Null else clean(key, answer) == Some(stored.value[key]))
  {
    assert StoredValue(form, clean, raw, visible, key) == Some(stored.value[key]);
  }

  /** Whatever a client sends for fields its own answers hide, the same response is stored, unless
      its rules form a ring that is hidden. */
  lemma StoredIgnoresHidden(form: Form, clean: Cleaner, raw: Response, found: map<string, bool>,
                            stored: Option<Response>,
                            other: Response, otherFound: map<string, bool>, otherStored: Option<Response>)
    requires var defs := RulesOf(form);
             && found.Keys == otherFound.Keys == form.Keys
             && IsRound(defs, raw, |defs| + 1, found) && IsRound(defs, other, |defs| + 1, otherFound)
             && AgreeOnShown(defs, found, raw, other)
             && (Acyclic(References(defs)) || (AllSaved(defs) && RingsShown(defs, found)))
    requires IsStored(form, clean, raw, found, stored) && IsStored(form, clean, other, otherFound, otherStored)
    ensures stored == otherStored
    ensures stored.Some? ==> forall key | key in stored.value && !found[key] :: stored.value[key] == Null
  {
    SameFieldsShown(RulesOf(form), raw, found, other, otherFound);
    forall key | key in form
      ensures StoredValue(form, clean, raw, found, key) == StoredValue(form, clean, other, otherFound, key)
    {
    }
    if stored.Some? && otherStored.Some? {
      forall key | key in stored.value ensures stored.value[key] == otherStored.value[key] {
        assert Some(stored.value[key]) == StoredValue(form, clean, raw, found, key);
        assert key in otherStored.value;
      }
      assert stored.value.Keys == otherStored.value.Keys;
      assert stored.value == otherStored.value;
    }
  }
}
