/** The field equations of a submitted form: rules, flags, formulas and checks
    (asoud_erp/services/form_schema.py:491-499, 783-842), and the cycle check of its schema
    (338-362, 378-450). What a single operator, formula or value check answers is a parameter. */
module FormFields {
  import opened Basics
  import opened Paths
  import opened FormDependencies
  import opened FormEvaluation

  datatype Action = Visible | Required | Readonly
  datatype Join = And | Or
  datatype Condition<V> = Condition(field: Key, op: string, value: V)
  datatype Rule<V> = Rule(target: Key, action: Action, enabled: bool, join: Join, conditions: seq<Condition<V>>)
  datatype Kind = Formula | Schedule | Other
  datatype Field = Field(
    kind: Kind, required: bool, readonly: bool,
    inputs: seq<Key>,          // formula inputs, in order
    table: Option<Key>,        // the table the formula aggregates
    filterOn: Option<Key>,     // link_filter.value_field
    fetchFrom: Option<Key>,    // the link of fetch_from
    bounds: set<Key>)          // after_or_equal, before_or_equal, time_after

  datatype Form<V> = Form(fields: map<Key, Field>, rules: seq<Rule<V>>)

  /** Scalar behaviour; a None is a raised validation error. */
  datatype Semantics<!V> = Semantics(
    nothing: V,                                // what a missing key reads as
    holds: (Condition<V>, V) -> Option<bool>,  // matches
    calculate: (Key, seq<V>, V) -> Option<V>,  // op-based formula: inputs, table
    fetched: (Key, V) -> V,                    // attribute of the linked record
    default: Key -> V,                         // default_value
    check: (Key, V, bool, V) -> Option<V>)     // value, required, filter value

  function Get<V>(sem: Semantics<V>, values: map<Key, V>, k: Key): V {
    if k in values then values[k] else sem.nothing
  }

  function GetOptional<V>(sem: Semantics<V>, values: map<Key, V>, k: Option<Key>): V {
    if k.Some? then Get(sem, values, k.value) else sem.nothing
  }

  function GetAll<V>(sem: Semantics<V>, values: map<Key, V>, keys: seq<Key>): seq<V> {
    if keys == [] then [] else [Get(sem, values, keys[0])] + GetAll(sem, values, keys[1..])
  }

  /* ---------- flags ---------- */

  /** all/any over the conditions of a rule, with their short circuits. */
  function RuleFires<V>(sem: Semantics<V>, join: Join, conditions: seq<Condition<V>>,
                        values: map<Key, V>): Option<bool> {
    if conditions == [] then Some(join.And?) else
      match sem.holds(conditions[0], Get(sem, values, conditions[0].field))
      case None => None
      case Some(b) => if b == join.Or? then Some(b) else RuleFires(sem, join, conditions[1..], values)
  }

  predicate Applies<V>(rule: Rule<V>, key: Key, action: Action) {
    rule.enabled && rule.target == key && rule.action == action
  }

  function Selected<V>(rules: seq<Rule<V>>, key: Key, action: Action): seq<Rule<V>> {
    if rules == [] then [] else
      var rest := Selected(rules[1..], key, action);
      if Applies(rules[0], key, action) then [rules[0]] + rest else rest
  }

  function AnyFires<V>(sem: Semantics<V>, rules: seq<Rule<V>>, values: map<Key, V>): Option<bool> {
    if rules == [] then Some(false) else
      match RuleFires(sem, rules[0].join, rules[0].conditions, values)
      case None => None
      case Some(fires) => if fires then Some(true) else AnyFires(sem, rules[1..], values)
  }

  /** One flag: its initial value without a rule; rules replace visibility and add to the others. */
  function Flag<V>(sem: Semantics<V>, form: Form<V>, key: Key, action: Action, initially: bool,
                   values: map<Key, V>): Option<bool> {
    var rules := Selected(form.rules, key, action);
    if rules == [] then Some(initially) else
      match AnyFires(sem, rules, values)
      case None => None
      case Some(fires) => Some(if action.Visible? then fires else initially || fires)
  }

  datatype Flags = Flags(visible: bool, required: bool, readonly: bool)

  function FieldFlags<V>(sem: Semantics<V>, form: Form<V>, key: Key, values: map<Key, V>): Option<Flags>
    requires key in form.fields
  {
    match Flag(sem, form, key, Visible, true, values)
    case None => None
    case Some(visible) =>
      match Flag(sem, form, key, Required, form.fields[key].required, values)
      case None => None
      case Some(required) =>
        match Flag(sem, form, key, Readonly, form.fields[key].readonly, values)
        case None => None
        case Some(readonly) => Some(Flags(visible, required, readonly))
  }

  /* ---------- what the flags mean ---------- */

  function HoldsAt<V>(sem: Semantics<V>, rule: Rule<V>, values: map<Key, V>, i: nat): Option<bool>
    requires i < |rule.conditions|
  {
    sem.holds(rule.conditions[i], Get(sem, values, rule.conditions[i].field))
  }

  /** The first i conditions leave the verdict open: true under "and", false under "or". */
  ghost predicate OpenUpTo<V>(sem: Semantics<V>, rule: Rule<V>, values: map<Key, V>, i: nat)
    requires i <= |rule.conditions|
  {
    forall j | 0 <= j < i :: HoldsAt(sem, rule, values, j) == Some(rule.join.And?)
  }

  function RuleVerdict<V>(sem: Semantics<V>, rule: Rule<V>, values: map<Key, V>): Option<bool> {
    RuleFires(sem, rule.join, rule.conditions, values)
  }

  /** A rule answers with its first condition that decides, a raised error included; if none does, it
      fires under "and" and does not under "or". */
  lemma {:induction false} RuleMeans<V>(sem: Semantics<V>, rule: Rule<V>, values: map<Key, V>, i: nat)
    requires i <= |rule.conditions| && OpenUpTo(sem, rule, values, i)
    requires i < |rule.conditions| ==> HoldsAt(sem, rule, values, i) != Some(rule.join.And?)
    ensures RuleVerdict(sem, rule, values)
         == if i < |rule.conditions| then HoldsAt(sem, rule, values, i) else Some(rule.join.And?)
    decreases i
  {
    if i > 0 {
      var rest := rule.(conditions := rule.conditions[1..]);
      assert HoldsAt(sem, rule, values, 0) == Some(rule.join.And?);
      forall j | 0 <= j < i - 1 ensures HoldsAt(sem, rest, values, j) == Some(rule.join.And?) {
        assert HoldsAt(sem, rule, values, j + 1) == Some(rule.join.And?);
      }
      RuleMeans(sem, rest, values, i - 1);
    }
  }

  /** A list of rules answers with its first one that fires or raises. */
  lemma {:induction false} AnyMeans<V>(sem: Semantics<V>, rules: seq<Rule<V>>, values: map<Key, V>, i: nat)
    requires i <= |rules| && forall j | 0 <= j < i :: RuleVerdict(sem, rules[j], values) == Some(false)
    requires i < |rules| ==> RuleVerdict(sem, rules[i], values) != Some(false)
    ensures AnyFires(sem, rules, values) == if i < |rules| then RuleVerdict(sem, rules[i], values) else Some(false)
    decreases i
  {
    if i > 0 {
      assert RuleVerdict(sem, rules[0], values) == Some(false);
      forall j | 0 <= j < i - 1 ensures RuleVerdict(sem, rules[1..][j], values) == Some(false) {
        assert rules[1..][j] == rules[j + 1];
      }
      AnyMeans(sem, rules[1..], values, i - 1);
    }
  }

  lemma {:induction false} SelectedApply<V>(rules: seq<Rule<V>>, key: Key, action: Action, r: Rule<V>)
    ensures r in Selected(rules, key, action) <==> r in rules && Applies(r, key, action)
  {
    if rules != [] {
      SelectedApply(rules[1..], key, action, r);
      assert r in rules <==> r == rules[0] || r in rules[1..];
    }
  }

  /** The rule at n is the first that applies and fires or raises; n is past the end if there is none. */
  ghost predicate FirstToSpeak<V>(sem: Semantics<V>, rules: seq<Rule<V>>, key: Key, action: Action,
                                  values: map<Key, V>, n: nat) {
    && n <= |rules|
    && (forall j | 0 <= j < n && Applies(rules[j], key, action) :: RuleVerdict(sem, rules[j], values) == Some(false))
    && (n < |rules| ==> Applies(rules[n], key, action) && RuleVerdict(sem, rules[n], values) != Some(false))
  }

  lemma {:induction false} SelectedSpeak<V>(sem: Semantics<V>, rules: seq<Rule<V>>, key: Key, action: Action,
                                            values: map<Key, V>, n: nat)
    requires FirstToSpeak(sem, rules, key, action, values, n)
    ensures AnyFires(sem, Selected(rules, key, action), values)
         == if n < |rules| then RuleVerdict(sem, rules[n], values) else Some(false)
    decreases |rules|
  {
    if rules != [] {
      if n == 0 {
        AnyMeans(sem, Selected(rules, key, action), values, 0);
      } else {
        assert Applies(rules[0], key, action) ==> RuleVerdict(sem, rules[0], values) == Some(false);
        forall j | 0 <= j < n - 1 && Applies(rules[1..][j], key, action)
          ensures RuleVerdict(sem, rules[1..][j], values) == Some(false)
        {
          assert rules[1..][j] == rules[j + 1];
        }
        SelectedSpeak(sem, rules[1..], key, action, values, n - 1);
      }
    }
  }

  ghost predicate SomeApplies<V>(form: Form<V>, key: Key, action: Action) {
    exists r :: r in form.rules && Applies(r, key, action)
  }

  /** A flag is what the first rule that applies and fires, or raises, makes it: a raised error goes
      up, a rule that fires sets it. Where rules apply and none fires, a field is hidden, and required
      or readonly as it is by itself; without rules nothing changes. */
  lemma FlagMeans<V(!new)>(sem: Semantics<V>, form: Form<V>, key: Key, action: Action, initially: bool,
                           values: map<Key, V>, n: nat)
    requires FirstToSpeak(sem, form.rules, key, action, values, n)
    ensures Flag(sem, form, key, action, initially, values)
         == if n < |form.rules| then (if RuleVerdict(sem, form.rules[n], values) == None then None else Some(true))
            else Some(initially && !(action.Visible? && SomeApplies(form, key, action)))
  {
    var selected := Selected(form.rules, key, action);
    SelectedSpeak(sem, form.rules, key, action, values, n);
    forall r ensures r in selected <==> r in form.rules && Applies(r, key, action) {
      SelectedApply(form.rules, key, action, r);
    }
    if n < |form.rules| {
      assert form.rules[n] in selected;
    }
    if selected != [] {
      assert selected[0] in selected;
    }
  }

  /* ---------- one field ---------- */

  /** The value a visible field is checked with. */
  function Candidate<V>(sem: Semantics<V>, field: Field, key: Key, readonly: bool, own: V,
                        view: map<Key, V>): Option<V> {
    if field.fetchFrom.Some? then Some(sem.fetched(key, GetOptional(sem, view, field.fetchFrom)))
    else if field.kind.Formula?
    then sem.calculate(key, GetAll(sem, view, field.inputs), GetOptional(sem, view, field.table))
    else if readonly then Some(sem.default(key))
    else Some(own)
  }

  /** The equation of one field: `own` is its submitted value, `view` holds its dependencies. */
  function FieldValue<V>(sem: Semantics<V>, form: Form<V>, own: V, key: Key, view: map<Key, V>): Option<Option<V>>
    requires key in form.fields
  {
    var field := form.fields[key];
    match FieldFlags(sem, form, key, view)
    case None => None
    case Some(flags) =>
      if field.kind.Schedule? || !flags.visible then Some(None) else
        match Candidate(sem, field, key, flags.readonly, own, view)
        case None => None
        case Some(value) =>
          match sem.check(key, value, flags.required, GetOptional(sem, view, field.filterOn))
          case None => None
          case Some(checked) => Some(Some(checked))
  }

  function Optional(k: Option<Key>): (r: seq<Key>)
    ensures k.Some? ==> k.value in r
  {
    if k.Some? then [k.value] else []
  }

  function ConditionFields<V>(conditions: seq<Condition<V>>): (r: seq<Key>)
    ensures forall c | c in conditions :: c.field in r
  {
    if conditions == [] then [] else [conditions[0].field] + ConditionFields(conditions[1..])
  }

  /** The fields read by the enabled rules of `key`. */
  function RuleFields<V>(rules: seq<Rule<V>>, key: Key): seq<Key> {
    if rules == [] then [] else
      (if rules[0].enabled && rules[0].target == key then ConditionFields(rules[0].conditions) else [])
      + RuleFields(rules[1..], key)
  }

  /** The fields `compute` evaluates before `key`, in its order. */
  function Needs<V>(form: Form<V>, key: Key): (r: seq<Key>)
    requires key in form.fields
    ensures forall k | k in RuleFields(form.rules, key) :: k in r
    ensures form.fields[key].filterOn.Some? ==> form.fields[key].filterOn.value in r
    ensures form.fields[key].fetchFrom.Some? ==> form.fields[key].fetchFrom.value in r
    ensures form.fields[key].kind.Formula? ==> forall k | k in form.fields[key].inputs :: k in r
    ensures form.fields[key].kind.Formula? && form.fields[key].table.Some? ==> form.fields[key].table.value in r
  {
    var field := form.fields[key];
    Optional(field.filterOn) + Optional(field.fetchFrom) + RuleFields(form.rules, key)
    + (if field.kind.Formula? then field.inputs + Optional(field.table) else [])
  }

  /** The equations of a form for one submission. */
  function Equations<V>(sem: Semantics<V>, form: Form<V>, initial: map<Key, V>): System<V> {
    System(map key | key in form.fields :: Needs(form, key),
           (key, view) => if key in form.fields then FieldValue(sem, form, Get(sem, initial, key), key, view) else None)
  }

  /* ---------- the equations are local ---------- */

  lemma {:induction false} RuleFiresLocal<V>(sem: Semantics<V>, join: Join, conditions: seq<Condition<V>>,
                                             a: map<Key, V>, b: map<Key, V>)
    requires forall c | c in conditions :: Get(sem, a, c.field) == Get(sem, b, c.field)
    ensures RuleFires(sem, join, conditions, a) == RuleFires(sem, join, conditions, b)
  {
    if conditions != [] {
      RuleFiresLocal(sem, join, conditions[1..], a, b);
    }
  }

  lemma {:induction false} AnyFiresLocal<V>(sem: Semantics<V>, rules: seq<Rule<V>>, a: map<Key, V>, b: map<Key, V>)
    requires forall r, c | r in rules && c in r.conditions :: Get(sem, a, c.field) == Get(sem, b, c.field)
    ensures AnyFires(sem, rules, a) == AnyFires(sem, rules, b)
  {
    if rules != [] {
      RuleFiresLocal(sem, rules[0].join, rules[0].conditions, a, b);
      AnyFiresLocal(sem, rules[1..], a, b);
    }
  }

  lemma {:induction false} SelectedFieldsAreRead<V>(rules: seq<Rule<V>>, key: Key, action: Action)
    ensures forall r, c | r in Selected(rules, key, action) && c in r.conditions :: c.field in RuleFields(rules, key)
  {
    if rules != [] {
      SelectedFieldsAreRead(rules[1..], key, action);
    }
  }

  lemma FlagLocal<V>(sem: Semantics<V>, form: Form<V>, key: Key, action: Action, initially: bool, a: map<Key, V>,
                     b: map<Key, V>)
    requires forall k | k in RuleFields(form.rules, key) :: Get(sem, a, k) == Get(sem, b, k)
    ensures Flag(sem, form, key, action, initially, a) == Flag(sem, form, key, action, initially, b)
  {
    SelectedFieldsAreRead(form.rules, key, action);
    AnyFiresLocal(sem, Selected(form.rules, key, action), a, b);
  }

  lemma {:induction false} GetAllLocal<V>(sem: Semantics<V>, keys: seq<Key>, a: map<Key, V>, b: map<Key, V>)
    requires forall k | k in keys :: Get(sem, a, k) == Get(sem, b, k)
    ensures GetAll(sem, a, keys) == GetAll(sem, b, keys)
  {
    if keys != [] {
      GetAllLocal(sem, keys[1..], a, b);
    }
  }

  lemma FieldFlagsLocal<V>(sem: Semantics<V>, form: Form<V>, key: Key, a: map<Key, V>, b: map<Key, V>)
    requires key in form.fields
    requires forall k | k in RuleFields(form.rules, key) :: Get(sem, a, k) == Get(sem, b, k)
    ensures FieldFlags(sem, form, key, a) == FieldFlags(sem, form, key, b)
  {
    FlagLocal(sem, form, key, Visible, true, a, b);
    FlagLocal(sem, form, key, Required, form.fields[key].required, a, b);
    FlagLocal(sem, form, key, Readonly, form.fields[key].readonly, a, b);
  }

  lemma CandidateLocal<V>(sem: Semantics<V>, field: Field, key: Key, readonly: bool, own: V, a: map<Key, V>,
                          b: map<Key, V>)
    requires GetOptional(sem, a, field.fetchFrom) == GetOptional(sem, b, field.fetchFrom)
    requires field.kind.Formula? ==> forall k | k in field.inputs :: Get(sem, a, k) == Get(sem, b, k)
    requires field.kind.Formula? ==> GetOptional(sem, a, field.table) == GetOptional(sem, b, field.table)
    ensures Candidate(sem, field, key, readonly, own, a) == Candidate(sem, field, key, readonly, own, b)
  {
    if field.kind.Formula? {
      GetAllLocal(sem, field.inputs, a, b);
    }
  }

  lemma FieldValueLocal<V>(sem: Semantics<V>, form: Form<V>, own: V, key: Key, a: map<Key, V>, b: map<Key, V>)
    requires key in form.fields
    requires forall k | k in Needs(form, key) :: Get(sem, a, k) == Get(sem, b, k)
    ensures FieldValue(sem, form, own, key, a) == FieldValue(sem, form, own, key, b)
  {
    FieldFlagsLocal(sem, form, key, a, b);
    var flags := FieldFlags(sem, form, key, a);
    if flags.Some? {
      CandidateLocal(sem, form.fields[key], key, flags.value.readonly, own, a, b);
    }
  }

  /** An equation reads what `Needs` lists and nothing else. */
  lemma EquationsAreLocal<V(!new)>(sem: Semantics<V>, form: Form<V>, initial: map<Key, V>)
    ensures Local(Equations(sem, form, initial))
  {
    var sys := Equations(sem, form, initial);
    forall key, a, b | key in sys.needs && AgreeOn(a, b, ReadSet(sys, key))
      ensures sys.value(key, a) == sys.value(key, b)
    {
      forall k | k in Needs(form, key) ensures Get(sem, a, k) == Get(sem, b, k) {
        assert Entry(a, k) == Entry(b, k);
      }
      FieldValueLocal(sem, form, Get(sem, initial, key), key, a, b);
    }
  }

  /** A submission is accepted exactly when its fields exist, do not depend on themselves and the
      field equations have a solution; what is stored is that unique solution, and it does not
      depend on the order in which the fields are listed. */
  method ValidateValues<V(!new)>(sem: Semantics<V>, form: Form<V>, listing: seq<Key>, initial: map<Key, V>)
    returns (outcome: Outcome, values: map<Key, V>)
    requires (set k | k in listing) == form.fields.Keys
    ensures outcome.Done? <==> Acyclic(Edges(ReadGraph(Equations(sem, form, initial))))
                               && Closed(ReadGraph(Equations(sem, form, initial)))
                               && (exists sol :: IsSolution(Equations(sem, form, initial), initial, sol))
    ensures outcome.Done? <==> Acyclic(Edges(ReadGraph(Equations(sem, form, initial))))
                               && Closed(ReadGraph(Equations(sem, form, initial)))
                               && !GroundedFailure(Equations(sem, form, initial))
    ensures outcome.Done? ==> IsSolution(Equations(sem, form, initial), initial, values)
    ensures outcome.Done? ==> forall sol | IsSolution(Equations(sem, form, initial), initial, sol) :: sol == values
    ensures outcome.CycleError? ==> !Acyclic(Edges(ReadGraph(Equations(sem, form, initial))))
    ensures AcceptedSchema(form) && NoFetch(form) ==> !outcome.CycleError?
    ensures AcceptedSchema(form) && !GroundedFailure(Equations(sem, form, initial)) ==>
      (outcome.CycleError? <==> !Acyclic(Edges(ReadGraph(Equations(sem, form, initial)))))
  {
    EquationsAreLocal(sem, form, initial);
    outcome, values := EvaluateAll(Equations(sem, form, initial), listing, initial);
    if AcceptedSchema(form) {
      AcceptedSchemaIsClosed(sem, form, initial);
      if NoFetch(form) {
        AcceptedSchemaNeverCycles(sem, form, initial);
      }
    }
  }

  /* ---------- what is stored ---------- */

  /** The value a field is checked with: a fetched one comes from the linked record, a computed one from its
      formula, a readonly one is the default; only what is left is the client's. */
  ghost predicate Stores<V>(sem: Semantics<V>, form: Form<V>, key: Key, required: bool, value: V, values: map<Key, V>)
    requires key in form.fields && key in values
  {
    var filter := match form.fields[key].filterOn
                  case Some(k) => if k in values then values[k] else sem.nothing
                  case None => sem.nothing;
    sem.check(key, value, required, filter) == Some(values[key])
  }

  /** In an accepted submission: a hidden field and a Schedule are absent, and every other field holds the
      checked value of its own source. */
  lemma StoredFields<V>(sem: Semantics<V>, form: Form<V>, initial: map<Key, V>, values: map<Key, V>, key: Key)
    requires key in form.fields && IsSolution(Equations(sem, form, initial), initial, values)
    ensures var field := form.fields[key];
      var visible := Flag(sem, form, key, Visible, true, values);
      var required := Flag(sem, form, key, Required, field.required, values);
      var readonly := Flag(sem, form, key, Readonly, field.readonly, values);
      && visible.Some? && required.Some? && readonly.Some?
      && (key in values <==> visible == Some(true) && !field.kind.Schedule?)
      && (key in values && field.fetchFrom.Some? ==>
            var link := field.fetchFrom.value;
            var record := if link in values then values[link] else sem.nothing;
            Stores(sem, form, key, required.value, sem.fetched(key, record), values))
      && (key in values && field.fetchFrom.None? && field.kind.Formula? ==>
            var result := sem.calculate(key, GetAll(sem, values, field.inputs), GetOptional(sem, values, field.table));
            result.Some? && Stores(sem, form, key, required.value, result.value, values))
      && (key in values && field.fetchFrom.None? && !field.kind.Formula? && readonly == Some(true) ==>
            Stores(sem, form, key, required.value, sem.default(key), values))
      && (key in values && field.fetchFrom.None? && !field.kind.Formula? && readonly == Some(false) ==>
            Stores(sem, form, key, required.value, if key in initial then initial[key] else sem.nothing, values))
  {
    var sys := Equations(sem, form, initial);
    assert key in sys.needs && sys.value(key, values) == Some(Entry(values, key));
  }

  /** Only a rule that applies, the formula or the check of a field can make it raise. */
  lemma FieldRaises<V>(sem: Semantics<V>, form: Form<V>, own: V, key: Key, view: map<Key, V>)
    requires key in form.fields && FieldValue(sem, form, own, key, view) == None
    ensures var field := form.fields[key];
      || Flag(sem, form, key, Visible, true, view) == None
      || Flag(sem, form, key, Required, field.required, view) == None
      || Flag(sem, form, key, Readonly, field.readonly, view) == None
      || (field.kind.Formula?
          && sem.calculate(key, GetAll(sem, view, field.inputs), GetOptional(sem, view, field.table)) == None)
      || exists value, required, filter :: sem.check(key, value, required, filter) == None
  {
  }

  /** Whether the client's own value enters what is stored for a field. */
  ghost predicate ClientOwned<V>(sem: Semantics<V>, form: Form<V>, key: Key, values: map<Key, V>)
    requires key in form.fields
  {
    && key in values && form.fields[key].fetchFrom.None? && !form.fields[key].kind.Formula?
    && Flag(sem, form, key, Readonly, form.fields[key].readonly, values) == Some(false)
  }

  /** Two submissions that agree on what belongs to the client, and on what is no field. */
  ghost predicate AgreeOnOwned<V>(sem: Semantics<V>, form: Form<V>, a: map<Key, V>, b: map<Key, V>,
                                  values: map<Key, V>) {
    && (forall key | key in form.fields && ClientOwned(sem, form, key, values) :: Get(sem, a, key) == Get(sem, b, key))
    && AgreeOutside(a, b, form.fields.Keys)
  }

  lemma ServerFieldsIgnored<V>(sem: Semantics<V>, form: Form<V>, a: map<Key, V>, b: map<Key, V>, values: map<Key, V>)
    requires IsSolution(Equations(sem, form, a), a, values) && AgreeOnOwned(sem, form, a, b, values)
    ensures IsSolution(Equations(sem, form, b), b, values)
  {
    forall key | key in form.fields
      ensures Equations(sem, form, b).value(key, values) == Some(Entry(values, key))
    {
      assert Equations(sem, form, a).value(key, values) == Some(Entry(values, key));
      OwnMatters(sem, form, Get(sem, a, key), Get(sem, b, key), key, values);
    }
  }

  /** The client's value matters where it is the client's only. */
  lemma OwnMatters<V>(sem: Semantics<V>, form: Form<V>, a: V, b: V, key: Key, values: map<Key, V>)
    requires key in form.fields && FieldValue(sem, form, a, key, values) == Some(Entry(values, key))
    requires ClientOwned(sem, form, key, values) ==> a == b
    ensures FieldValue(sem, form, b, key, values) == Some(Entry(values, key))
  {
  }

  /** If one submission is accepted, so is every other that differs only in what was sent for fields that
      are readonly, computed, fetched, hidden or no values at all, and the same is stored. */
  method SubmitTwice<V(!new)>(sem: Semantics<V>, form: Form<V>, listing: seq<Key>, a: map<Key, V>, b: map<Key, V>)
    returns (first: Outcome, stored: map<Key, V>, second: Outcome, again: map<Key, V>)
    requires (set k | k in listing) == form.fields.Keys
    ensures first.Done? && AgreeOnOwned(sem, form, a, b, stored) ==> second.Done? && again == stored
  {
    first, stored := ValidateValues(sem, form, listing, a);
    second, again := ValidateValues(sem, form, listing, b);
    if first.Done? && AgreeOnOwned(sem, form, a, b, stored) {
      ServerFieldsIgnored(sem, form, a, b, stored);
      assert ReadGraph(Equations(sem, form, a)) == ReadGraph(Equations(sem, form, b));
    }
  }

  /** A field that another one reads is its fetched link, or a dependency of the second walk. */
  lemma NeedIsChecked<V>(form: Form<V>, key: Key, k: Key)
    requires key in form.fields && k in Needs(form, key)
    ensures form.fields[key].fetchFrom == Some(k) || k in FieldGraph(form)[key]
  {
    EnabledRulesAreRules(form.rules, key);
  }

  lemma LinkIsChecked<V>(form: Form<V>, key: Key, k: Key)
    requires key in form.fields && form.fields[key].fetchFrom == Some(k)
    ensures k in ItemGraph(form)[key]
  {
    assert k in Optional(form.fields[key].fetchFrom);
  }

  /** Both walks together make sure that every field the evaluation reads exists, fetched ones too. */
  lemma AcceptedSchemaIsClosed<V(!new)>(sem: Semantics<V>, form: Form<V>, initial: map<Key, V>)
    requires AcceptedSchema(form)
    ensures Closed(ReadGraph(Equations(sem, form, initial)))
  {
    var item, field := ItemGraph(form), FieldGraph(form);
    var graph := ReadGraph(Equations(sem, form, initial));
    forall key, k | key in graph && k in graph[key] ensures k in graph {
      NeedIsChecked(form, key, k);
      if k in field[key] {
        assert k in field;
      } else {
        LinkIsChecked(form, key, k);
        assert k in item;
      }
    }
  }

  /* ---------- the schema check ---------- */

  /** All fields a rule of `key` mentions, enabled or not. */
  function AnyRuleFields<V>(rules: seq<Rule<V>>, key: Key): seq<Key> {
    if rules == [] then [] else
      (if rules[0].target == key then ConditionFields(rules[0].conditions) else []) + AnyRuleFields(rules[1..], key)
  }

  function Names(keys: seq<Key>): set<Key> {
    set k | k in keys
  }

  /** The first walk: formula inputs, link filters and fetched links. */
  function ItemGraph<V>(form: Form<V>): Dependencies {
    map key | key in form.fields ::
      var field := form.fields[key];
      Names((if field.kind.Formula? then field.inputs else []) + Optional(field.filterOn) + Optional(field.fetchFrom))
  }

  /** The second walk: date bounds, link filters, formula inputs and tables, and every rule. */
  function FieldGraph<V>(form: Form<V>): Dependencies {
    map key | key in form.fields ::
      var field := form.fields[key];
      field.bounds + Names(Optional(field.filterOn)
                           + (if field.kind.Formula? then field.inputs + Optional(field.table) else [])
                           + AnyRuleFields(form.rules, key))
  }

  ghost predicate AcceptedSchema<V>(form: Form<V>) {
    && Acyclic(Edges(ItemGraph(form))) && Closed(ItemGraph(form))
    && Acyclic(Edges(FieldGraph(form))) && Closed(FieldGraph(form))
  }

  predicate NoFetch<V>(form: Form<V>) {
    forall key | key in form.fields :: form.fields[key].fetchFrom.None?
  }

  method ValidateSchema<V>(form: Form<V>) returns (ok: bool)
    ensures ok <==> AcceptedSchema(form)
  {
    ok := AcceptsDependencies(ItemGraph(form));
    if ok {
      ok := AcceptsDependencies(FieldGraph(form));
    }
  }

  lemma {:induction false} EnabledRulesAreRules<V>(rules: seq<Rule<V>>, key: Key)
    ensures forall k | k in RuleFields(rules, key) :: k in AnyRuleFields(rules, key)
  {
    if rules != [] {
      EnabledRulesAreRules(rules[1..], key);
    }
  }

  /** Without fetched fields the schema check covers every dependency the evaluation follows. */
  lemma AcceptedSchemaNeverCycles<V(!new)>(sem: Semantics<V>, form: Form<V>, initial: map<Key, V>)
    requires AcceptedSchema(form) && NoFetch(form)
    ensures Acyclic(Edges(ReadGraph(Equations(sem, form, initial))))
    ensures Closed(ReadGraph(Equations(sem, form, initial)))
  {
    var sys := Equations(sem, form, initial);
    forall key, k | key in form.fields && k in Needs(form, key) ensures k in FieldGraph(form)[key] {
      EnabledRulesAreRules(form.rules, key);
    }
    assert Edges(ReadGraph(sys)) <= Edges(FieldGraph(form));
    SubgraphAcyclic(Edges(FieldGraph(form)), Edges(ReadGraph(sys)));
  }

  /** With fetched fields it does not: let a be fetched through the link b while a rule on b
      reads a. Each walk accepts the schema, yet the evaluation meets a cycle. */
  function FetchedForm<V>(a: Key, b: Key, value: V): Form<V> {
    var plain := Field(Other, false, false, [], None, None, None, {});
    Form(map[a := plain.(fetchFrom := Some(b)), b := plain],
         [Rule(b, Visible, true, And, [Condition(a, "not_empty", value)])])
  }

  lemma FetchedFormRules<V>(a: Key, b: Key, value: V)
    requires a != b
    ensures RuleFields(FetchedForm(a, b, value).rules, b) == [a] == AnyRuleFields(FetchedForm(a, b, value).rules, b)
    ensures AnyRuleFields(FetchedForm(a, b, value).rules, a) == []
  {
    var rules := FetchedForm(a, b, value).rules;
    assert rules[1..] == [] && rules[0].conditions[1..] == [];
    assert ConditionFields(rules[0].conditions) == [a];
    assert RuleFields(rules, b) == ConditionFields(rules[0].conditions) + RuleFields(rules[1..], b);
    assert AnyRuleFields(rules, b) == ConditionFields(rules[0].conditions) + AnyRuleFields(rules[1..], b);
  }

  lemma FetchedFormAccepted<V>(a: Key, b: Key, value: V)
    requires a != b
    ensures AcceptedSchema(FetchedForm(a, b, value))
  {
    var form := FetchedForm(a, b, value);
    FetchedFormRules(a, b, value);
    var item, field := ItemGraph(form), FieldGraph(form);
    forall key, k | key in item && k in item[key] ensures key == a && k == b {
    }
    forall key, k | key in field && k in field[key] ensures key == b && k == a {
    }
    OneEdgeIsNoCycle(item, a, b);
    OneEdgeIsNoCycle(field, b, a);
  }

  lemma FetchedFormReads<V>(a: Key, b: Key, value: V)
    requires a != b
    ensures var form := FetchedForm(a, b, value);
            a in form.fields && b in form.fields && b in Needs(form, a) && a in Needs(form, b)
  {
    FetchedFormRules(a, b, value);
  }

  lemma FetchedFormCycles<V(!new)>(sem: Semantics<V>, initial: map<Key, V>, a: Key, b: Key, value: V)
    requires a != b
    ensures !Acyclic(Edges(ReadGraph(Equations(sem, FetchedForm(a, b, value), initial))))
  {
    FetchedFormReads(a, b, value);
    PairIsCycle(ReadGraph(Equations(sem, FetchedForm(a, b, value), initial)), a, b);
  }

  /** Each of the two fields waits for the other, so whatever the operators and checks answer, none
      of them gets a value. */
  lemma FetchedFormIsStuck<V(!new)>(sem: Semantics<V>, initial: map<Key, V>, a: Key, b: Key, value: V)
    requires a != b
    ensures !GroundedFailure(Equations(sem, FetchedForm(a, b, value), initial))
  {
    var sys := Equations(sem, FetchedForm(a, b, value), initial);
    FetchedFormReads(a, b, value);
    forall order | Grounded(sys, order) ensures a !in order && b !in order {
      NeitherIsFirst(sys, order, a, b);
    }
    forall order, values, key ensures !FailsAfter(sys, order, values, key) {
      assert key in sys.needs ==> key == a || key == b;
    }
  }

  lemma NeitherIsFirst<V>(sys: System<V>, order: seq<Key>, a: Key, b: Key)
    requires Grounded(sys, order) && a in sys.needs && b in sys.needs && b in sys.needs[a] && a in sys.needs[b]
    ensures a !in order && b !in order
  {
    if a in order {
      ReadsComeFirst(sys, order, a, b);
      ReadsComeFirst(sys, order, b, a);
    }
    if b in order {
      ReadsComeFirst(sys, order, b, a);
    }
  }

  /** Both walks accept the schema, and every submission of it is refused with the cycle error. */
  method SubmitFetchedForm<V(!new)>(sem: Semantics<V>, listing: seq<Key>, initial: map<Key, V>, a: Key, b: Key,
                                    value: V)
    returns (accepted: bool, outcome: Outcome)
    requires a != b && (set k | k in listing) == {a, b}
    ensures accepted && outcome == CycleError
  {
    FetchEscapesSchemaCheck(sem, initial, a, b, value);
    FetchedFormIsStuck(sem, initial, a, b, value);
    accepted := ValidateSchema(FetchedForm(a, b, value));
    assert FetchedForm(a, b, value).fields.Keys == {a, b};
    var values;
    outcome, values := ValidateValues(sem, FetchedForm(a, b, value), listing, initial);
  }

  lemma FetchEscapesSchemaCheck<V(!new)>(sem: Semantics<V>, initial: map<Key, V>, a: Key, b: Key, value: V)
    requires a != b
    ensures AcceptedSchema(FetchedForm(a, b, value))
    ensures !Acyclic(Edges(ReadGraph(Equations(sem, FetchedForm(a, b, value), initial))))
  {
    FetchedFormAccepted(a, b, value);
    FetchedFormCycles(sem, initial, a, b, value);
  }
}
