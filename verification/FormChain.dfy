/** The chain formula: products are folded on a stack first, sums afterwards
    (asoud_erp/services/form_schema.py:703, 733-762). It agrees with the expression evaluator
    (555-578) on the same operands and operators written in infix form. */
module FormChain {
  import opened Basics
  import opened FormExpression

  datatype ChainOp = Add | Subtract | Multiply | Divide | PercentOf {
    function ToToken(): Token {
      match this
      case Add => Plus
      case Subtract => Minus
      case Multiply => Star
      case Divide => Slash
      case PercentOf => Percent
    }

    predicate IsSum() { Add? || Subtract? }
  }

  /** The tokens that follow the n-th operand of the infix form. */
  function InfixFrom(keys: seq<string>, ops: seq<ChainOp>, n: nat): (r: seq<Token>)
    requires |keys| == |ops| + 1 && n <= |ops|
    ensures r != [] ==> r[0] != LParen
    decreases |ops| - n
  {
    if n == |ops| then [] else [ops[n].ToToken(), Ident(keys[n + 1])] + InfixFrom(keys, ops, n + 1)
  }

  function Infix(keys: seq<string>, ops: seq<ChainOp>): seq<Token>
    requires |keys| == |ops| + 1
  {
    [Ident(keys[0])] + InfixFrom(keys, ops, 0)
  }

  /** The sums that the first pass leaves, folded from the left. */
  function FoldSums(args: seq<real>, ops: seq<ChainOp>): real
    requires |args| == |ops| + 1 && forall o | o in ops :: o.IsSum()
  {
    if ops == [] then args[0] else
      var before := FoldSums(args[..|args| - 1], ops[..|ops| - 1]);
      var last := args[|args| - 1];
      if ops[|ops| - 1] == Add then before + last else before - last
  }

  /** A pending sum: the operator and what stands to its left. */
  type Pending = Option<(ChainOp, real)>

  function Joined(pending: Pending, x: real): real {
    match pending
    case None => x
    case Some((op, left)) => if op == Add then left + x else left - x
  }

  /** How the evaluator goes on with a pending sum, a current product and the tokens left. */
  ghost function Continue(pending: Pending, current: real, toks: seq<Token>, env: Env): Parsed {
    match Tail(2, toks, current, env, true)
    case Fail(e) => Fail(e)
    case Ok(rest, product) => Tail(1, rest, Joined(pending, product), env, true)
  }

  lemma OperandRead(name: string, rest: seq<Token>, env: Env)
    requires rest != [] ==> rest[0] != LParen
    ensures Parse(3, [Ident(name)] + rest, env, true)
            == match Lookup(env, Ident(name)) case None => Fail(Arithmetic) case Some(v) => Ok(rest, v)
  {
    var toks := [Ident(name)] + rest;
    assert toks[1..] == rest && toks[0] == Ident(name);
    assert rest != [] ==> toks[1] == rest[0];
    assert Parse(3, toks, env, true) == Unary(toks, env, true) == Primary(toks, env, true);
  }

  lemma SumStep(left: real, op: ChainOp, toks: seq<Token>, rest: seq<Token>, next: Option<real>, env: Env)
    requires op.IsSum()
    requires Parse(3, toks, env, true) == match next case None => Fail(Arithmetic) case Some(v) => Ok(rest, v)
    ensures Tail(1, [op.ToToken()] + toks, left, env, true) == (
      match next
      case None => Fail(Arithmetic)
      case Some(v) => Continue(Some((op, left)), v, rest, env))
  {
    var all := [op.ToToken()] + toks;
    assert all[1..] == toks && IsOp(1, all[0]);
    if next.Some? {
      assert Parse(2, toks, env, true) == Tail(2, rest, next.value, env, true);
      var product := Tail(2, rest, next.value, env, true);
      if product.Ok? {
        assert Apply(op.ToToken(), left, product.value) == Some(Joined(Some((op, left)), product.value));
      }
    }
  }

  /** The evaluator over one more operator and operand. */
  lemma ContinueStep(pending: Pending, current: real, op: ChainOp, name: string, rest: seq<Token>, env: Env)
    requires pending.Some? ==> pending.value.0.IsSum()
    requires rest != [] ==> rest[0] != LParen
    ensures Continue(pending, current, [op.ToToken(), Ident(name)] + rest, env) == (
      match Lookup(env, Ident(name))
      case None => Fail(Arithmetic)
      case Some(next) =>
        if op.IsSum() then Continue(Some((op, Joined(pending, current))), next, rest, env)
        else match Apply(op.ToToken(), current, next)
          case None => Fail(Arithmetic)
          case Some(product) => Continue(pending, product, rest, env))
  {
    var toks := [op.ToToken(), Ident(name)] + rest;
    assert toks[1..] == [Ident(name)] + rest && toks[0] == op.ToToken();
    assert toks == [op.ToToken()] + ([Ident(name)] + rest);
    OperandRead(name, rest, env);
    if op.IsSum() {
      SumStep(Joined(pending, current), op, [Ident(name)] + rest, rest, Lookup(env, Ident(name)), env);
    } else {
      assert IsOp(2, toks[0]);
    }
  }

  /** The evaluator fails on an operand that is no number, wherever it stands. */
  lemma {:induction false} BadOperandFails(pending: Pending, current: real, keys: seq<string>, ops: seq<ChainOp>,
                                           n: nat, bad: nat, env: Env)
    requires |keys| == |ops| + 1 && n < bad <= |ops| && Lookup(env, Ident(keys[bad])) == None
    requires pending.Some? ==> pending.value.0.IsSum()
    ensures Continue(pending, current, InfixFrom(keys, ops, n), env) == Fail(Arithmetic)
    decreases bad - n
  {
    ContinueStep(pending, current, ops[n], keys[n + 1], InfixFrom(keys, ops, n + 1), env);
    var next := Lookup(env, Ident(keys[n + 1]));
    if next.Some? {
      if ops[n].IsSum() {
        BadOperandFails(Some((ops[n], Joined(pending, current))), next.value, keys, ops, n + 1, bad, env);
      } else {
        var product := Apply(ops[n].ToToken(), current, next.value);
        if product.Some? {
          BadOperandFails(pending, product.value, keys, ops, n + 1, bad, env);
        }
      }
    }
  }

  lemma ParseStarts(keys: seq<string>, ops: seq<ChainOp>, env: Env)
    requires |keys| == |ops| + 1
    ensures Parse(1, Infix(keys, ops), env, true) == (
      match Lookup(env, Ident(keys[0]))
      case None => Fail(Arithmetic)
      case Some(first) => Continue(None, first, InfixFrom(keys, ops, 0), env))
  {
    OperandRead(keys[0], InfixFrom(keys, ops, 0), env);
  }

  /** The pending sum of the two stacks. */
  function PendingOf(args: seq<real>, ops: seq<ChainOp>): (p: Pending)
    requires |args| == |ops| + 1 && forall o | o in ops :: o.IsSum()
    ensures p.Some? ==> p.value.0.IsSum()
    ensures FoldSums(args, ops) == Joined(p, args[|args| - 1])
  {
    if ops == [] then None
    else Some((ops[|ops| - 1], FoldSums(args[..|args| - 1], ops[..|ops| - 1])))
  }

  /** The numbers of the operands, or the failure of the first that is none. */
  method Operands(keys: seq<string>, env: Env) returns (bad: Option<nat>, args: seq<real>)
    ensures bad == None ==>
      |args| == |keys| && forall i | 0 <= i < |keys| :: Lookup(env, Ident(keys[i])) == Some(args[i])
    ensures bad != None ==> bad.value < |keys| && Lookup(env, Ident(keys[bad.value])) == None
  {
    args := [];
    for n := 0 to |keys|
      invariant |args| == n && forall i | 0 <= i < n :: Lookup(env, Ident(keys[i])) == Some(args[i])
    {
      match Lookup(env, Ident(keys[n])) {
        case None => return Some(n), args;
        case Some(number) => args := args + [number];
      }
    }
    bad := None;
  }

  /** The stacks after n operators: the evaluator would go on from here to the same result. */
  ghost predicate StateAt(whole: Parsed, keys: seq<string>, ops: seq<ChainOp>, env: Env,
                          remArgs: seq<real>, remOps: seq<ChainOp>, n: nat)
    requires |keys| == |ops| + 1 && n <= |ops|
  {
    && |remArgs| == |remOps| + 1 && (forall o | o in remOps :: o.IsSum())
    && whole == Continue(PendingOf(remArgs, remOps), remArgs[|remArgs| - 1], InfixFrom(keys, ops, n), env)
  }

  lemma StateStep(whole: Parsed, keys: seq<string>, ops: seq<ChainOp>, env: Env,
                  remArgs: seq<real>, remOps: seq<ChainOp>, n: nat, next: real)
    requires |keys| == |ops| + 1 && n < |ops| && Lookup(env, Ident(keys[n + 1])) == Some(next)
    requires StateAt(whole, keys, ops, env, remArgs, remOps, n)
    ensures ops[n].IsSum() ==> StateAt(whole, keys, ops, env, remArgs + [next], remOps + [ops[n]], n + 1)
    ensures !ops[n].IsSum() ==>
      match Apply(ops[n].ToToken(), remArgs[|remArgs| - 1], next)
      case None => whole == Fail(Arithmetic)
      case Some(product) => StateAt(whole, keys, ops, env, remArgs[..|remArgs| - 1] + [product], remOps, n + 1)
  {
    var top := remArgs[|remArgs| - 1];
    ContinueStep(PendingOf(remArgs, remOps), top, ops[n], keys[n + 1], InfixFrom(keys, ops, n + 1), env);
    if ops[n].IsSum() {
      PushSum(remArgs, remOps, ops[n], next);
    } else {
      var product := Apply(ops[n].ToToken(), top, next);
      if product.Some? {
        ReplaceTop(remArgs, remOps, product.value);
      }
    }
  }

  /** First pass: products and quotients are folded onto the top of the stack. */
  method FoldProducts(ghost keys: seq<string>, args: seq<real>, ops: seq<ChainOp>, ghost env: Env, ghost whole: Parsed)
    returns (error: Option<Error>, remArgs: seq<real>, remOps: seq<ChainOp>)
    requires |keys| == |args| == |ops| + 1
    requires forall i | 0 <= i < |keys| :: Lookup(env, Ident(keys[i])) == Some(args[i])
    requires whole == Continue(None, args[0], InfixFrom(keys, ops, 0), env)
    ensures error == None ==> StateAt(whole, keys, ops, env, remArgs, remOps, |ops|)
    ensures error != None ==> whole == Fail(error.value)
  {
    error, remArgs, remOps := None, [args[0]], [];
    for n := 0 to |ops|
      invariant StateAt(whole, keys, ops, env, remArgs, remOps, n)
    {
      StateStep(whole, keys, ops, env, remArgs, remOps, n, args[n + 1]);
      if ops[n].IsSum() {
        remOps := remOps + [ops[n]];
        remArgs := remArgs + [args[n + 1]];
      } else {
        var product := FoldOne(ops[n], remArgs[|remArgs| - 1], args[n + 1]);
        if product == None {
          return Some(Arithmetic), remArgs, remOps;
        }
        remArgs := remArgs[..|remArgs| - 1] + [product.value];
      }
    }
  }

  /** One product, quotient or percentage; None is the division by zero. */
  method FoldOne(op: ChainOp, previous: real, next: real) returns (product: Option<real>)
    requires !op.IsSum()
    ensures product == Apply(op.ToToken(), previous, next)
  {
    match op {
      case Multiply => product := Some(previous * next);
      case Divide =>
        if next == 0.0 {
          return None;
        }
        product := Some(previous / next);
      case PercentOf => product := Some(Hundredths(previous, next));
    }
  }

  lemma PushSum(args: seq<real>, ops: seq<ChainOp>, op: ChainOp, next: real)
    requires |args| == |ops| + 1 && (forall o | o in ops :: o.IsSum()) && op.IsSum()
    ensures PendingOf(args + [next], ops + [op]) == Some((op, Joined(PendingOf(args, ops), args[|args| - 1])))
  {
    assert (args + [next])[..|args|] == args && (ops + [op])[..|ops|] == ops;
  }

  lemma ReplaceTop(args: seq<real>, ops: seq<ChainOp>, top: real)
    requires |args| == |ops| + 1 && forall o | o in ops :: o.IsSum()
    ensures PendingOf(args[..|args| - 1] + [top], ops) == PendingOf(args, ops)
  {
    assert (args[..|args| - 1] + [top])[..|args| - 1] == args[..|args| - 1];
  }

  /** The chain method, for any list of operands and operators: the same value as the expression
      evaluator on the infix form, which it reads to the end, and the same failure. */
  method Chain(keys: seq<string>, ops: seq<ChainOp>, env: Env) returns (error: Option<Error>, value: real)
    ensures |keys| != |ops| + 1 ==> error != None
    ensures |keys| == |ops| + 1 ==>
      Parse(0, Infix(keys, ops), env, true) == match error case None => Ok([], value) case Some(e) => Fail(e)
  {
    value := 0.0;
    var bad, args := Operands(keys, env);
    if bad != None {
      if |keys| == |ops| + 1 {
        ParseStarts(keys, ops, env);
        var first := Lookup(env, Ident(keys[0]));
        if first.Some? {
          BadOperandFails(None, first.value, keys, ops, 0, bad.value, env);
        }
      }
      return Some(Arithmetic), value;
    }
    if args == [] || |args| != |ops| + 1 {
      return Some(Syntax), value;
    }
    ParseStarts(keys, ops, env);
    ghost var whole := Parse(1, Infix(keys, ops), env, true);
    var remArgs, remOps;
    error, remArgs, remOps := FoldProducts(keys, args, ops, env, whole);
    if error != None {
      return;
    }
    assert whole == Ok([], FoldSums(remArgs, remOps));
    value := AddUp(remArgs, remOps);
  }

  /** Second pass: the sums, from the left. */
  method AddUp(remArgs: seq<real>, remOps: seq<ChainOp>) returns (value: real)
    requires |remArgs| == |remOps| + 1 && forall o | o in remOps :: o.IsSum()
    ensures value == FoldSums(remArgs, remOps)
  {
    value := remArgs[0];
    for n := 0 to |remOps|
      invariant value == FoldSums(remArgs[..n + 1], remOps[..n])
    {
      value := if remOps[n] == Add then value + remArgs[n + 1] else value - remArgs[n + 1];
      assert remArgs[..n + 2][..n + 1] == remArgs[..n + 1] && remOps[..n + 1][..n] == remOps[..n];
    }
    assert remArgs[..|remOps| + 1] == remArgs && remOps[..|remOps|] == remOps;
  }
}
