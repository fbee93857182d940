/** Printing expression trees and reading them back: the evaluator of FormExpression gives every tree
    its meaning, and reads nothing but trees (asoud_erp/services/form_schema.py:529-646). */
module FormPrinting {
  import opened Basics
  import opened Rounding
  import opened FormExpression

  /** Trees as they are written: parentheses that need not be there are a Group, calls keep the
      spelling of their name. */
  datatype Expr =
    | Lit(value: real)
    | Leaf(token: Token)
    | Group(arg: Expr)
    | Neg(arg: Expr)
    | Pos(arg: Expr)
    | Bin(op: Token, left: Expr, right: Expr)
    | If(name: string, condition: Expr, whenTrue: Expr, whenFalse: Expr)
    | Round(name: string, arg: Expr, digits: Option<Expr>)
    | Extremum(name: string, max: bool, args: seq<Expr>)

  /** A name, or a stray token in operand position, which the evaluator looks up like one. */
  predicate IsLeaf(t: Token) {
    !t.Num? && t != LParen && t != Minus && t != Plus
  }

  predicate Names(name: string, f: Function) {
    FunctionOf(Ident(name)) == f
  }

  predicate WellFormed(e: Expr) {
    match e
    case Lit(_) => true
    case Leaf(t) => IsLeaf(t)
    case Group(a) => WellFormed(a)
    case Neg(a) => WellFormed(a)
    case Pos(a) => WellFormed(a)
    case Bin(op, a, b) => (IsOp(0, op) || IsOp(1, op) || IsOp(2, op)) && WellFormed(a) && WellFormed(b)
    case If(name, c, a, b) => Names(name, IfFn) && WellFormed(c) && WellFormed(a) && WellFormed(b)
    case Round(name, a, d) => Names(name, RoundFn) && WellFormed(a) && (d.Some? ==> WellFormed(d.value))
    case Extremum(name, max, args) =>
      Names(name, if max then MaxFn else MinFn) && args != [] && forall i | 0 <= i < |args| :: WellFormed(args[i])
  }

  /* ---------- meaning ---------- */

  /** The value of a tree. Only the taken branch of an IF is evaluated. */
  function Meaning(e: Expr, env: Env): Option<real>
    requires WellFormed(e)
  {
    match e
    case Lit(v) => Some(v)
    case Leaf(t) => Lookup(env, t)
    case Group(a) => Meaning(a, env)
    case Neg(a) => (match Meaning(a, env) case None => None case Some(v) => Some(-v))
    case Pos(a) => Meaning(a, env)
    case Bin(op, a, b) =>
      (match Meaning(a, env) case None => None case Some(x) =>
       match Meaning(b, env) case None => None case Some(y) => Apply(op, x, y))
    case If(_, c, a, b) =>
      (match Meaning(c, env) case None => None case Some(v) => if v != 0.0 then Meaning(a, env) else Meaning(b, env))
    case Round(_, a, d) =>
      (match Meaning(a, env) case None => None case Some(x) =>
       if d == None then Some(RoundHalfUp(x, 0)) else
       match Meaning(d.value, env) case None => None case Some(n) => Some(RoundHalfUp(x, Truncate(n))))
    case Extremum(_, max, args) =>
      (match Meanings(args, env) case None => None case Some(vs) => Some(Extreme(max, vs)))
  }

  function Meanings(args: seq<Expr>, env: Env): (r: Option<seq<real>>)
    requires forall i | 0 <= i < |args| :: WellFormed(args[i])
    ensures r.Some? ==> |r.value| == |args|
  {
    if args == [] then Some([]) else
      match Meanings(args[..|args| - 1], env) case None => None case Some(vs) =>
      match Meaning(args[|args| - 1], env) case None => None case Some(v) => Some(vs + [v])
  }

  /** The value that skip mode carries along, which nothing uses. */
  function Skipped(e: Expr): real {
    match e
    case Lit(v) => v
    case Group(a) => Skipped(a)
    case Pos(a) => Skipped(a)
    case Bin(_, a, _) => Skipped(a)
    case _ => 0.0
  }

  function Value(e: Expr, env: Env, execute: bool): Option<real>
    requires WellFormed(e)
  {
    if execute then Meaning(e, env) else Some(Skipped(e))
  }

  /* ---------- printing ---------- */

  function OpLevel(op: Token): nat {
    if IsOp(0, op) then 0 else if IsOp(1, op) then 1 else 2
  }

  function Binding(e: Expr): nat {
    match e
    case Bin(op, _, _) => OpLevel(op)
    case Neg(_) => 3
    case Pos(_) => 3
    case _ => 4
  }

  function Call(name: string): seq<Token> {
    [Ident(name), LParen]
  }

  /** Prints a tree where an operand of the given level is expected. */
  function Print(level: nat, e: Expr): seq<Token>
    decreases e, 1
  {
    if Binding(e) < level then [LParen] + Plain(e) + [RParen] else Plain(e)
  }

  function Plain(e: Expr): seq<Token>
    decreases e, 0
  {
    match e
    case Lit(v) => [Num(v)]
    case Leaf(t) => [t]
    case Group(a) => [LParen] + Print(0, a) + [RParen]
    case Neg(a) => [Minus] + Print(3, a)
    case Pos(a) => [Plus] + Print(3, a)
    case Bin(op, a, b) => Print(OpLevel(op), a) + [op] + Print(OpLevel(op) + 1, b)
    case If(name, c, a, b) =>
      Call(name) + Print(0, c) + [Comma] + Print(0, a) + [Comma] + Print(0, b) + [RParen]
    case Round(name, a, d) =>
      Call(name) + Print(0, a) + (if d.Some? then [Comma] + Print(0, d.value) else []) + [RParen]
    case Extremum(name, max, args) =>
      Call(name) + (if args == [] then [] else Print(0, args[0]) + PrintMore(args, 1)) + [RParen]
  }

  function PrintMore(args: seq<Expr>, n: nat): seq<Token>
    requires n <= |args|
    decreases args, |args| - n
  {
    if n == |args| then [] else [Comma] + Print(0, args[n]) + PrintMore(args, n + 1)
  }

  /* ---------- reading back ---------- */

  /** The tokens after a printed operand: nothing that would extend it. */
  predicate Stops(level: nat, s: seq<Token>) {
    s == [] || (s[0] != LParen && forall k | level < k <= 3 :: !IsOp(k, s[0]))
  }

  /** What reading an operand at a level must give. */
  ghost function Expected(level: nat, value: Option<real>, s: seq<Token>, env: Env, execute: bool): Parsed
    requires level <= 3
  {
    match value
    case None => Fail(Arithmetic)
    case Some(v) => Tail(level, s, v, env, execute)
  }

  /** Anything that reads as a primary reads the same at every level. */
  lemma {:induction false} FromPrimary(level: nat, toks: seq<Token>, s: seq<Token>, value: Option<real>, env: Env,
                                       execute: bool)
    requires level <= 3 && Stops(level, s)
    requires toks != [] && toks[0] != Minus && toks[0] != Plus
    requires Primary(toks, env, execute) == match value case None => Fail(Arithmetic) case Some(v) => Ok(s, v)
    ensures Parse(level, toks, env, execute) == Expected(level, value, s, env, execute)
    decreases 3 - level
  {
    if level < 3 {
      FromPrimary(level + 1, toks, s, value, env, execute);
    }
  }

  ghost function Measure(level: nat, e: Expr): nat {
    if Binding(e) < level then 12 else Binding(e) - level + 3
  }

  /** Reading the print of a tree gives its value and leaves what follows it. */
  lemma {:induction false} ParsePrint(level: nat, e: Expr, s: seq<Token>, env: Env, execute: bool)
    requires level <= 3 && WellFormed(e) && Stops(level, s)
    ensures Parse(level, Print(level, e) + s, env, execute) == Expected(level, Value(e, env, execute), s, env, execute)
    decreases e, Measure(level, e)
  {
    if Binding(e) < level {
      ParenthesesRead(level, e, s, env, execute);
    } else if Binding(e) == 4 {
      AtomRead(e, s, env, execute);
      FromPrimary(level, Plain(e) + s, s, Value(e, env, execute), env, execute);
    } else if Binding(e) > level {
      ParsePrint(level + 1, e, s, env, execute);
      FromTighter(level, Plain(e) + s, s, Value(e, env, execute), env, execute);
    } else if level == 3 {
      SignRead(e, s, env, execute);
    } else {
      BinaryRead(level, e, s, env, execute);
    }
  }

  /** A part read at the next level, which no operator of this level follows. */
  lemma FromTighter(level: nat, toks: seq<Token>, s: seq<Token>, value: Option<real>, env: Env, execute: bool)
    requires level < 3 && Stops(level, s)
    requires Parse(level + 1, toks, env, execute) == Expected(level + 1, value, s, env, execute)
    ensures Parse(level, toks, env, execute) == Expected(level, value, s, env, execute)
  {
  }

  lemma {:induction false} ParenthesesRead(level: nat, e: Expr, s: seq<Token>, env: Env, execute: bool)
    requires level <= 3 && WellFormed(e) && Stops(level, s) && Binding(e) < level
    ensures Parse(level, Print(level, e) + s, env, execute) == Expected(level, Value(e, env, execute), s, env, execute)
    decreases e, 9
  {
    var toks := Plain(e) + ([RParen] + s);
    assert Print(level, e) + s == [LParen] + toks;
    ArgumentRead(e, [RParen] + s, env, execute);
    GroupGives(toks, s, Value(e, env, execute), env, execute);
    FromPrimary(level, [LParen] + toks, s, Value(e, env, execute), env, execute);
  }

  lemma {:induction false} SignRead(e: Expr, s: seq<Token>, env: Env, execute: bool)
    requires WellFormed(e) && Stops(3, s) && Binding(e) == 3
    ensures Parse(3, Plain(e) + s, env, execute) == Expected(3, Value(e, env, execute), s, env, execute)
    decreases e, 2
  {
    var sign := if e.Neg? then Minus else Plus;
    var toks := Print(3, e.arg) + s;
    assert Plain(e) + s == [sign] + toks;
    ParsePrint(3, e.arg, s, env, execute);
    SignGives(sign, toks, s, Value(e.arg, env, execute), env, execute);
  }

  lemma SignGives(sign: Token, toks: seq<Token>, s: seq<Token>, x: Option<real>, env: Env, execute: bool)
    requires sign == Minus || sign == Plus
    requires Parse(3, toks, env, execute) == Expected(3, x, s, env, execute)
    ensures Parse(3, [sign] + toks, env, execute) == (
      if x == None then Fail(Arithmetic)
      else Ok(s, if sign == Plus then x.value else if execute then -x.value else 0.0))
  {
    assert ([sign] + toks)[1..] == toks;
    assert Tail(3, s, 0.0, env, execute) == Ok(s, 0.0);
  }

  lemma {:induction false} BinaryRead(level: nat, e: Expr, s: seq<Token>, env: Env, execute: bool)
    requires level <= 2 && WellFormed(e) && Stops(level, s) && e.Bin? && OpLevel(e.op) == level
    ensures Parse(level, Plain(e) + s, env, execute) == Expected(level, Value(e, env, execute), s, env, execute)
    decreases e, 2
  {
    var more := [e.op] + (Print(level + 1, e.right) + s);
    Regroup(Print(level, e.left), e.op, Print(level + 1, e.right), s);
    StopsAtOperator(level, e.op, more);
    ParsePrint(level, e.left, more, env, execute);
    ParsePrint(level + 1, e.right, s, env, execute);
    BinaryGives(level, Print(level, e.left) + more, e.op, Print(level + 1, e.right) + s, s,
                Value(e.left, env, execute), Value(e.right, env, execute), env, execute);
  }

  lemma Regroup(a: seq<Token>, t: Token, b: seq<Token>, s: seq<Token>)
    ensures (a + [t] + b) + s == a + ([t] + (b + s))
  {
  }

  lemma StopsAtOperator(level: nat, op: Token, s: seq<Token>)
    requires IsOp(level, op) && s != [] && s[0] == op
    ensures Stops(level, s)
  {
  }

  lemma BinaryGives(level: nat, toks1: seq<Token>, op: Token, toks2: seq<Token>, s: seq<Token>,
                    x: Option<real>, y: Option<real>, env: Env, execute: bool)
    requires level <= 2 && IsOp(level, op) && Stops(level, s)
    requires Parse(level, toks1, env, execute) == Expected(level, x, [op] + toks2, env, execute)
    requires Parse(level + 1, toks2, env, execute) == Expected(level + 1, y, s, env, execute)
    ensures Parse(level, toks1, env, execute) == (
      if x == None || y == None then Fail(Arithmetic)
      else Expected(level, if execute then Apply(op, x.value, y.value) else x, s, env, execute))
  {
    assert ([op] + toks2)[1..] == toks2;
  }

  predicate Closes(s: seq<Token>) {
    s != [] && (s[0] == Comma || s[0] == RParen)
  }

  ghost function Outcome(value: Option<real>, s: seq<Token>): Parsed {
    match value
    case None => Fail(Arithmetic)
    case Some(v) => Ok(s, v)
  }

  /** An operand followed by a comma or a closing parenthesis. */
  lemma {:induction false} ArgumentRead(e: Expr, s: seq<Token>, env: Env, execute: bool)
    requires WellFormed(e) && Closes(s)
    ensures Parse(0, Print(0, e) + s, env, execute) == Outcome(Value(e, env, execute), s)
    decreases e, 8
  {
    ParsePrint(0, e, s, env, execute);
  }

  /** Literals, names and function calls. */
  lemma {:induction false} AtomRead(e: Expr, s: seq<Token>, env: Env, execute: bool)
    requires WellFormed(e) && Binding(e) == 4 && (s == [] || s[0] != LParen)
    ensures Primary(Plain(e) + s, env, execute) == Outcome(Value(e, env, execute), s)
    ensures Plain(e)[0] != Minus && Plain(e)[0] != Plus
    decreases e, 2
  {
    match e
    case Lit(_) => LeafRead(Num(e.value), s, env, execute);
    case Leaf(_) => LeafRead(e.token, s, env, execute);
    case Group(_) => GroupRead(e, s, env, execute);
    case If(_, _, _, _) => IfRead(e, s, env, execute);
    case Round(_, _, _) => RoundRead(e, s, env, execute);
    case Extremum(_, _, _) => ExtremumRead(e, s, env, execute);
  }

  lemma {:induction false} GroupRead(e: Expr, s: seq<Token>, env: Env, execute: bool)
    requires WellFormed(e) && e.Group?
    ensures Primary(Plain(e) + s, env, execute) == Outcome(Value(e, env, execute), s)
    decreases e, 1
  {
    var toks := Print(0, e.arg) + ([RParen] + s);
    assert Plain(e) + s == [LParen] + toks;
    ArgumentRead(e.arg, [RParen] + s, env, execute);
    GroupGives(toks, s, Value(e.arg, env, execute), env, execute);
  }

  lemma GroupGives(toks: seq<Token>, s: seq<Token>, x: Option<real>, env: Env, execute: bool)
    requires Parse(0, toks, env, execute) == Outcome(x, [RParen] + s)
    ensures Primary([LParen] + toks, env, execute) == Outcome(x, s)
  {
    assert ([LParen] + toks)[1..] == toks && ([RParen] + s)[1..] == s;
  }

  lemma LeafRead(t: Token, s: seq<Token>, env: Env, execute: bool)
    requires (t.Num? || IsLeaf(t)) && (s == [] || s[0] != LParen)
    ensures Primary([t] + s, env, execute) == (
      if t.Num? then Ok(s, t.value) else if !execute then Ok(s, 0.0) else Outcome(Lookup(env, t), s))
  {
    assert ([t] + s)[1..] == s;
  }

  lemma CallRead(name: string, f: Function, toks: seq<Token>, env: Env, execute: bool)
    requires Names(name, f) && !f.Unknown?
    ensures Primary(Call(name) + toks, env, execute) == (
      match f
      case IfFn => IfCall(toks, env, execute)
      case RoundFn => RoundCall(toks, env, execute)
      case _ => ExtremeCall(f.MaxFn?, toks, env, execute))
  {
    var all := Call(name) + toks;
    assert all[2..] == toks && all[0] == Ident(name) && all[1] == LParen;
  }

  /** The call of IF, once its three parts are read. */
  lemma IfCallGives(toks1: seq<Token>, toks2: seq<Token>, toks3: seq<Token>, s: seq<Token>,
                    c: Option<real>, a: Option<real>, b: Option<real>, env: Env, execute: bool)
    requires Parse(0, toks1, env, execute) == Outcome(c, [Comma] + toks2)
    requires c.Some? ==> Parse(0, toks2, env, execute && c.value != 0.0) == Outcome(a, [Comma] + toks3)
    requires c.Some? ==> Parse(0, toks3, env, execute && c.value == 0.0) == Outcome(b, [RParen] + s)
    ensures IfCall(toks1, env, execute) == (
      if c == None || a == None || b == None then Fail(Arithmetic)
      else Ok(s, if !execute then 0.0 else if c.value != 0.0 then a.value else b.value))
  {
    assert ([Comma] + toks2)[1..] == toks2 && ([Comma] + toks3)[1..] == toks3 && ([RParen] + s)[1..] == s;
  }

  lemma {:induction false} IfRead(e: Expr, s: seq<Token>, env: Env, execute: bool)
    requires WellFormed(e) && e.If?
    ensures Primary(Plain(e) + s, env, execute) == Outcome(Value(e, env, execute), s)
    decreases e, 1
  {
    var toks3 := Print(0, e.whenFalse) + ([RParen] + s);
    var toks2 := Print(0, e.whenTrue) + ([Comma] + toks3);
    var toks1 := Print(0, e.condition) + ([Comma] + toks2);
    assert Plain(e) + s == Call(e.name) + toks1;
    CallRead(e.name, IfFn, toks1, env, execute);
    var c := Value(e.condition, env, execute);
    var holds := execute && c.Some? && c.value != 0.0;
    var other := execute && c.Some? && c.value == 0.0;
    ArgumentRead(e.condition, [Comma] + toks2, env, execute);
    ArgumentRead(e.whenTrue, [Comma] + toks3, env, holds);
    ArgumentRead(e.whenFalse, [RParen] + s, env, other);
    IfCallGives(toks1, toks2, toks3, s, c, Value(e.whenTrue, env, holds), Value(e.whenFalse, env, other), env, execute);
  }

  lemma {:induction false} RoundRead(e: Expr, s: seq<Token>, env: Env, execute: bool)
    requires WellFormed(e) && e.Round?
    ensures Primary(Plain(e) + s, env, execute) == Outcome(Value(e, env, execute), s)
    decreases e, 1
  {
    if e.digits.None? {
      assert Plain(e) + s == Call(e.name) + (Print(0, e.arg) + ([RParen] + s));
      CallRead(e.name, RoundFn, Print(0, e.arg) + ([RParen] + s), env, execute);
      ArgumentRead(e.arg, [RParen] + s, env, execute);
      RoundPlainGives(Print(0, e.arg) + ([RParen] + s), s, Value(e.arg, env, execute), env, execute);
    } else {
      var toks2 := Print(0, e.digits.value) + ([RParen] + s);
      RoundText(e.name, Print(0, e.arg), Print(0, e.digits.value), s);
      CallRead(e.name, RoundFn, Print(0, e.arg) + ([Comma] + toks2), env, execute);
      ArgumentRead(e.arg, [Comma] + toks2, env, execute);
      ArgumentRead(e.digits.value, [RParen] + s, env, execute);
      RoundCallGives(Print(0, e.arg) + ([Comma] + toks2), toks2, s,
                     Value(e.arg, env, execute), Value(e.digits.value, env, execute), env, execute);
    }
  }

  lemma RoundText(name: string, a: seq<Token>, d: seq<Token>, s: seq<Token>)
    ensures (Call(name) + a + ([Comma] + d) + [RParen]) + s == Call(name) + (a + ([Comma] + (d + ([RParen] + s))))
  {
  }

  lemma RoundPlainGives(toks: seq<Token>, s: seq<Token>, x: Option<real>, env: Env, execute: bool)
    requires Parse(0, toks, env, execute) == Outcome(x, [RParen] + s)
    ensures RoundCall(toks, env, execute) == (
      if x == None then Fail(Arithmetic) else Ok(s, if execute then RoundHalfUp(x.value, 0) else 0.0))
  {
    assert ([RParen] + s)[1..] == s;
  }

  lemma RoundCallGives(toks1: seq<Token>, toks2: seq<Token>, s: seq<Token>, x: Option<real>, d: Option<real>,
                       env: Env, execute: bool)
    requires Parse(0, toks1, env, execute) == Outcome(x, [Comma] + toks2)
    requires Parse(0, toks2, env, execute) == Outcome(d, [RParen] + s)
    ensures RoundCall(toks1, env, execute) == (
      if x == None || d == None then Fail(Arithmetic)
      else Ok(s, if execute then RoundHalfUp(x.value, Truncate(d.value)) else 0.0))
  {
    assert ([Comma] + toks2)[1..] == toks2 && ([RParen] + s)[1..] == s;
  }

  lemma {:induction false} ExtremumRead(e: Expr, s: seq<Token>, env: Env, execute: bool)
    requires WellFormed(e) && e.Extremum?
    ensures Primary(Plain(e) + s, env, execute) == Outcome(Value(e, env, execute), s)
    decreases e, 1
  {
    var more := PrintMore(e.args, 1) + ([RParen] + s);
    var f := if e.max then MaxFn else MinFn;
    assert Plain(e) + s == Call(e.name) + (Print(0, e.args[0]) + more);
    CallRead(e.name, f, Print(0, e.args[0]) + more, env, execute);
    ArgumentRead(e.args[0], more, env, execute);
    FirstMeaning(e.args, env);
    var first := Value(e.args[0], env, execute);
    if first.Some? {
      MoreRead(e.max, e.args, 1, [first.value], s, env, execute);
    }
  }

  lemma FirstMeaning(args: seq<Expr>, env: Env)
    requires args != [] && forall i | 0 <= i < |args| :: WellFormed(args[i])
    ensures match Meaning(args[0], env)
            case None => Meanings(args, env) == None
            case Some(x) => Meanings(args[..1], env) == Some([x])
  {
    MeaningsOfPrefix(args, 0, env);
    match Meaning(args[0], env)
    case None => FirstFailureFails(args, 1, env);
    case Some(x) => assert [] + [x] == [x];
  }

  /** The values of one more argument. */
  lemma MeaningsOfPrefix(args: seq<Expr>, n: nat, env: Env)
    requires forall i | 0 <= i < |args| :: WellFormed(args[i])
    requires n < |args|
    ensures Meanings(args[..n + 1], env) == (
      if Meanings(args[..n], env) == None || Meaning(args[n], env) == None then None
      else Some(Meanings(args[..n], env).value + [Meaning(args[n], env).value]))
    ensures Meanings(args[..0], env) == Some([])
  {
    assert args[..n + 1][..n] == args[..n];
  }

  lemma MoreArgsStep(max: bool, toks: seq<Token>, more: seq<Token>, values: seq<real>, next: Option<real>, env: Env,
                     execute: bool)
    requires values != [] && Parse(0, toks, env, execute) == Outcome(next, more)
    ensures MoreArgs(max, [Comma] + toks, values, env, execute)
            == if next == None then Fail(Arithmetic) else MoreArgs(max, more, values + [next.value], env, execute)
  {
    assert ([Comma] + toks)[1..] == toks;
  }

  /** What reading an argument list comes to. */
  ghost function ListOutcome(max: bool, args: seq<Expr>, s: seq<Token>, env: Env, execute: bool): Parsed
    requires args != [] && forall i | 0 <= i < |args| :: WellFormed(args[i])
  {
    if !execute then Ok(s, 0.0) else
      match Meanings(args, env)
      case None => Fail(Arithmetic)
      case Some(values) => Ok(s, Extreme(max, values))
  }

  lemma ListEnds(max: bool, args: seq<Expr>, values: seq<real>, s: seq<Token>, env: Env, execute: bool)
    requires args != [] && values != [] && forall i | 0 <= i < |args| :: WellFormed(args[i])
    requires execute ==> Meanings(args, env) == Some(values)
    ensures MoreArgs(max, [RParen] + s, values, env, execute) == ListOutcome(max, args, s, env, execute)
  {
    assert ([RParen] + s)[1..] == s;
  }

  /** Reading the arguments from the n-th on, with the values of the earlier ones at hand. */
  lemma {:induction false} MoreRead(max: bool, args: seq<Expr>, n: nat, values: seq<real>, s: seq<Token>, env: Env,
                                    execute: bool)
    requires (forall i | 0 <= i < |args| :: WellFormed(args[i])) && 1 <= n <= |args| && values != []
    requires execute ==> Meanings(args[..n], env) == Some(values)
    ensures MoreArgs(max, PrintMore(args, n) + ([RParen] + s), values, env, execute)
            == ListOutcome(max, args, s, env, execute)
    decreases args, |args| - n
  {
    if n == |args| {
      assert PrintMore(args, n) + ([RParen] + s) == [RParen] + s;
      assert args[..n] == args;
      ListEnds(max, args, values, s, env, execute);
    } else {
      ArgumentRead(args[n], PrintMore(args, n + 1) + ([RParen] + s), env, execute);
      MoreGoesOn(max, args, n, values, s, env, execute);
      var next := Value(args[n], env, execute);
      if next.Some? {
        MoreRead(max, args, n + 1, values + [next.value], s, env, execute);
      }
    }
  }

  /** One more argument: its value joins those at hand, or the whole list fails. */
  lemma MoreGoesOn(max: bool, args: seq<Expr>, n: nat, values: seq<real>, s: seq<Token>, env: Env, execute: bool)
    requires (forall i | 0 <= i < |args| :: WellFormed(args[i])) && 1 <= n < |args| && values != []
    requires execute ==> Meanings(args[..n], env) == Some(values)
    requires var more := PrintMore(args, n + 1) + ([RParen] + s);
      Parse(0, Print(0, args[n]) + more, env, execute) == Outcome(Value(args[n], env, execute), more)
    ensures var next := Value(args[n], env, execute);
      && MoreArgs(max, PrintMore(args, n) + ([RParen] + s), values, env, execute)
         == (if next == None then ListOutcome(max, args, s, env, execute)
             else MoreArgs(max, PrintMore(args, n + 1) + ([RParen] + s), values + [next.value], env, execute))
      && (execute && next.Some? ==> Meanings(args[..n + 1], env) == Some(values + [next.value]))
  {
    var more := PrintMore(args, n + 1) + ([RParen] + s);
    MoreStarts(args, n, s);
    MoreArgsStep(max, Print(0, args[n]) + more, more, values, Value(args[n], env, execute), env, execute);
    MeaningsOfPrefix(args, n, env);
    if Value(args[n], env, execute) == None {
      FirstFailureFails(args, n + 1, env);
    }
  }

  lemma MoreStarts(args: seq<Expr>, n: nat, s: seq<Token>)
    requires n < |args|
    ensures PrintMore(args, n) + ([RParen] + s)
            == [Comma] + (Print(0, args[n]) + (PrintMore(args, n + 1) + ([RParen] + s)))
    ensures Closes(PrintMore(args, n + 1) + ([RParen] + s))
  {
  }

  /** An argument without a value leaves the whole list without one. */
  lemma {:induction false} FirstFailureFails(args: seq<Expr>, n: nat, env: Env)
    requires forall i | 0 <= i < |args| :: WellFormed(args[i])
    requires n <= |args| && Meanings(args[..n], env) == None
    ensures Meanings(args, env) == None
    decreases |args| - n
  {
    if n == |args| {
      assert args[..n] == args;
    } else {
      MeaningsOfPrefix(args, n, env);
      FirstFailureFails(args, n + 1, env);
    }
  }

  /** Evaluating the print of a tree consumes every token and gives the meaning of the tree,
      error included. */
  lemma ParsePrinted(e: Expr, env: Env)
    requires WellFormed(e)
    ensures Parse(0, Print(0, e), env, true)
            == match Meaning(e, env) case None => Fail(Arithmetic) case Some(v) => Ok([], v)
  {
    assert Print(0, e) + [] == Print(0, e);
    ParsePrint(0, e, [], env, true);
  }

  /** An IF is its taken branch, even when the other one divides by zero. */
  lemma IfIsTakenBranch(name: string, c: Expr, a: Expr, b: Expr, env: Env, v: real)
    requires WellFormed(If(name, c, a, b)) && Meaning(c, env) == Some(v)
    ensures Parse(0, Print(0, If(name, c, a, b)), env, true) == Parse(0, Print(0, if v != 0.0 then a else b), env, true)
  {
    ParsePrinted(If(name, c, a, b), env);
    ParsePrinted(if v != 0.0 then a else b, env);
  }
}
