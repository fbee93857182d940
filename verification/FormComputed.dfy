/** Chain formulas inside a form: in an accepted submission every visible one holds what the expression
    evaluator gives for its infix form over the stored values
    (asoud_erp/services/form_schema.py:703-707, 733-762, 776-778, 836-840). */
module FormComputed {
  import opened Basics
  import opened Rounding
  import opened FormDependencies
  import opened FormEvaluation
  import F = FormFields
  import opened FormExpression
  import opened FormChain

  datatype ChainFormula = ChainFormula(ops: seq<ChainOp>, precision: int)

  /** How values are read as numbers (None is the raised error) and how results are written. */
  datatype Scalars<!V> = Scalars(number: V -> Option<real>, text: real -> V)

  /* ---------- the two passes, as a function ---------- */

  /** Goes on with the stacks `args` and `ops` over the operators `rest` and their operands. */
  function FoldChain(args: seq<real>, ops: seq<ChainOp>, next: seq<real>, rest: seq<ChainOp>): Option<real>
    requires |args| == |ops| + 1 && (forall o | o in ops :: o.IsSum()) && |next| == |rest|
    decreases |rest|
  {
    if rest == [] then Some(FoldSums(args, ops))
    else if rest[0].IsSum() then FoldChain(args + [next[0]], ops + [rest[0]], next[1..], rest[1..])
    else
      match Apply(rest[0].ToToken(), args[|args| - 1], next[0])
      case None => None
      case Some(product) => FoldChain(args[..|args| - 1] + [product], ops, next[1..], rest[1..])
  }

  function Numbers<V>(scalars: Scalars<V>, inputs: seq<V>): (r: Option<seq<real>>)
    ensures r.Some? ==> |r.value| == |inputs|
                        && forall i | 0 <= i < |inputs| :: scalars.number(inputs[i]) == Some(r.value[i])
    ensures r.None? ==> exists i :: 0 <= i < |inputs| && scalars.number(inputs[i]) == None
  {
    if inputs == [] then Some([]) else
      match scalars.number(inputs[0])
      case None => None
      case Some(x) =>
        match Numbers(scalars, inputs[1..])
        case None => None
        case Some(rest) => Some([x] + rest)
  }

  /** The value of a chain formula, or None when it raises. */
  function CalculateChain<V>(scalars: Scalars<V>, chain: ChainFormula, inputs: seq<V>): Option<V> {
    match Numbers(scalars, inputs)
    case None => None
    case Some(numbers) =>
      if |numbers| != |chain.ops| + 1 then None else
        match FoldChain([numbers[0]], [], numbers[1..], chain.ops)
        case None => None
        case Some(x) => Some(scalars.text(RoundHalfUp(x, chain.precision)))
  }

  /** The operators, formulas and checks of a form some of whose formulas are chains. */
  function WithChains<V>(sem: F.Semantics<V>, scalars: Scalars<V>, chains: map<Key, ChainFormula>): F.Semantics<V> {
    sem.(calculate := (key, inputs, table) =>
      if key in chains then CalculateChain(scalars, chains[key], inputs) else sem.calculate(key, inputs, table))
  }

  /* ---------- the passes agree with the evaluator ---------- */

  /** The evaluator goes on from the stacks to what the passes give. */
  lemma {:induction false} FoldIsContinue(keys: seq<string>, all: seq<ChainOp>, values: seq<real>, env: Env,
                                          args: seq<real>, ops: seq<ChainOp>, n: nat)
    requires |keys| == |values| == |all| + 1 && n <= |all|
    requires forall i | 0 <= i < |keys| :: Lookup(env, Ident(keys[i])) == Some(values[i])
    requires |args| == |ops| + 1 && forall o | o in ops :: o.IsSum()
    ensures Continue(PendingOf(args, ops), args[|args| - 1], InfixFrom(keys, all, n), env)
         == match FoldChain(args, ops, values[n + 1..], all[n..])
            case None => Fail(Arithmetic)
            case Some(x) => Ok([], x)
    decreases |all| - n
  {
    if n < |all| {
      var top := args[|args| - 1];
      var next, rest := values[n + 1..], all[n..];
      assert next[0] == values[n + 1] && next[1..] == values[n + 2..] && rest[0] == all[n] && rest[1..] == all[n + 1..];
      ContinueStep(PendingOf(args, ops), top, all[n], keys[n + 1], InfixFrom(keys, all, n + 1), env);
      if all[n].IsSum() {
        PushSum(args, ops, all[n], next[0]);
        FoldIsContinue(keys, all, values, env, args + [next[0]], ops + [all[n]], n + 1);
      } else {
        var product := Apply(all[n].ToToken(), top, next[0]);
        if product.Some? {
          ReplaceTop(args, ops, product.value);
          FoldIsContinue(keys, all, values, env, args[..|args| - 1] + [product.value], ops, n + 1);
        }
      }
    }
  }

  lemma ChainIsParsed(keys: seq<string>, ops: seq<ChainOp>, values: seq<real>, env: Env)
    requires |keys| == |values| == |ops| + 1
    requires forall i | 0 <= i < |keys| :: Lookup(env, Ident(keys[i])) == Some(values[i])
    ensures Parse(0, Infix(keys, ops), env, true)
         == match FoldChain([values[0]], [], values[1..], ops) case None => Fail(Arithmetic) case Some(x) => Ok([], x)
  {
    ParseStarts(keys, ops, env);
    FoldIsContinue(keys, ops, values, env, [values[0]], [], 0);
    assert ops[0..] == ops;
  }

  /* ---------- in a form ---------- */

  /** The stored values as the evaluator reads them. */
  function EnvOf<V>(scalars: Scalars<V>, values: map<Key, V>): Env {
    map key | key in values :: scalars.number(values[key])
  }

  lemma {:induction false} InputsRead<V>(sem: F.Semantics<V>, scalars: Scalars<V>, values: map<Key, V>,
                                         inputs: seq<Key>)
    requires scalars.number(sem.nothing) == Some(0.0)
    ensures |F.GetAll(sem, values, inputs)| == |inputs|
    ensures forall i | 0 <= i < |inputs| ::
      scalars.number(F.GetAll(sem, values, inputs)[i]) == Lookup(EnvOf(scalars, values), Ident(inputs[i]))
  {
    if inputs != [] {
      InputsRead(sem, scalars, values, inputs[1..]);
    }
  }

  /** The infix form of the formula over the stored values. */
  function Evaluated<V>(scalars: Scalars<V>, values: map<Key, V>, inputs: seq<Key>, ops: seq<ChainOp>): Parsed
    requires |inputs| == |ops| + 1
  {
    Parse(0, Infix(inputs, ops), EnvOf(scalars, values), true)
  }

  /** A chain formula has a value exactly when it has one operand more than operators and the evaluator
      reads its infix form without an error; the value is then the evaluator's. */
  lemma ChainFormulaMeans<V>(sem: F.Semantics<V>, scalars: Scalars<V>, chain: ChainFormula, values: map<Key, V>,
                             inputs: seq<Key>)
    requires scalars.number(sem.nothing) == Some(0.0)
    ensures CalculateChain(scalars, chain, F.GetAll(sem, values, inputs))
         == if |inputs| != |chain.ops| + 1 || Evaluated(scalars, values, inputs, chain.ops).Fail? then None
            else Some(scalars.text(RoundHalfUp(Evaluated(scalars, values, inputs, chain.ops).value, chain.precision)))
    ensures |inputs| == |chain.ops| + 1 && Evaluated(scalars, values, inputs, chain.ops).Ok? ==>
      Evaluated(scalars, values, inputs, chain.ops).rest == []
  {
    var read, env := F.GetAll(sem, values, inputs), EnvOf(scalars, values);
    InputsRead(sem, scalars, values, inputs);
    var numbers := Numbers(scalars, read);
    if |inputs| == |chain.ops| + 1 {
      if numbers.Some? {
        ChainIsParsed(inputs, chain.ops, numbers.value, env);
      } else {
        var bad :| 0 <= bad < |inputs| && Lookup(env, Ident(inputs[bad])) == None;
        BadOperandIsFailure(inputs, chain.ops, bad, env);
      }
    }
  }

  lemma BadOperandIsFailure(keys: seq<string>, ops: seq<ChainOp>, bad: nat, env: Env)
    requires |keys| == |ops| + 1 && bad < |keys| && Lookup(env, Ident(keys[bad])) == None
    ensures Parse(0, Infix(keys, ops), env, true) == Fail(Arithmetic)
  {
    ParseStarts(keys, ops, env);
    var first := Lookup(env, Ident(keys[0]));
    if first.Some? {
      BadOperandFails(None, first.value, keys, ops, 0, bad, env);
    }
  }

  predicate IsChainField<V>(form: F.Form<V>, chains: map<Key, ChainFormula>, key: Key) {
    key in form.fields && form.fields[key].kind.Formula? && form.fields[key].fetchFrom == None && key in chains
  }

  /** What is stored for a chain formula passed its check and is the evaluator's value of the infix
      form over what is stored for its operands, which the evaluator reads to the end. */
  ghost predicate StoredChain<V>(sem: F.Semantics<V>, scalars: Scalars<V>, chain: ChainFormula, form: F.Form<V>,
                                 key: Key,
                                 required: bool, values: map<Key, V>)
    requires key in form.fields && key in values
  {
    var field := form.fields[key];
    && |field.inputs| == |chain.ops| + 1
    && var result := Evaluated(scalars, values, field.inputs, chain.ops);
       && result.Ok? && result.rest == []
       && sem.check(key, scalars.text(RoundHalfUp(result.value, chain.precision)), required,
                    F.GetOptional(sem, values, field.filterOn)) == Some(values[key])
  }

  /** In the solution of the field equations, so in every accepted submission, each chain formula that
      is visible has its value, and one that is not is absent. */
  lemma AcceptedChains<V(!new)>(sem: F.Semantics<V>, scalars: Scalars<V>, chains: map<Key, ChainFormula>,
                                form: F.Form<V>,
                                initial: map<Key, V>, values: map<Key, V>, key: Key)
    requires scalars.number(sem.nothing) == Some(0.0) && IsChainField(form, chains, key)
    requires IsSolution(F.Equations(WithChains(sem, scalars, chains), form, initial), initial, values)
    ensures var flags := F.FieldFlags(WithChains(sem, scalars, chains), form, key, values);
      && flags.Some? && (key in values <==> flags.value.visible)
      && (key in values ==> StoredChain(sem, scalars, chains[key], form, key, flags.value.required, values))
  {
    var chained, field := WithChains(sem, scalars, chains), form.fields[key];
    var sys := F.Equations(chained, form, initial);
    assert key in sys.needs && sys.value(key, values) == Some(Entry(values, key));
    ChainFormulaMeans(chained, scalars, chains[key], values, field.inputs);
  }
}
