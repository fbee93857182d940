/** The expression evaluator of form formulas: recursive descent over tokens with a skip mode
    for the branch of an IF that is not taken (asoud_erp/services/form_schema.py:502-646).
    Values are exact numbers. */
module FormExpression {
  import opened Basics
  import opened Rounding

  datatype Comparison = Gt | Lt | Eq | Ge | Le | Ne
  datatype Token =
    | Num(value: real) | Ident(name: string)
    | LParen | RParen | Comma
    | Plus | Minus | Star | Slash | Percent
    | Compare(comparison: Comparison)

  /** The form values: a field that is missing reads as 0, one that is no number (None) fails. */
  type Env = map<string, Option<real>>

  datatype Error = Syntax | Arithmetic

  /** What a parsing function leaves: the tokens after the part it read, and its value. */
  datatype Parsed = Ok(rest: seq<Token>, value: real) | Fail(error: Error) {
    predicate IsFailure() { Fail? }
    function PropagateFailure(): Parsed requires Fail? { this }
    function Extract(): (seq<Token>, real) requires Ok? { (rest, value) }
  }

  /* ---------- operators ---------- */

  /** Binding levels: 0 comparisons, 1 sums, 2 products, 3 unary. */
  predicate IsOp(level: nat, t: Token) {
    match t
    case Compare(_) => level == 0
    case Plus => level == 1
    case Minus => level == 1
    case Star => level == 2
    case Slash => level == 2
    case Percent => level == 2
    case _ => false
  }

  function Truth(b: bool): real { if b then 1.0 else 0.0 }

  /** The percent operator: a * b / 100. */
  function Hundredths(a: real, b: real): real { a * b / 100.0 }

  function Apply(op: Token, a: real, b: real): Option<real> {
    match op
    case Plus => Some(a + b)
    case Minus => Some(a - b)
    case Star => Some(a * b)
    case Slash => if b == 0.0 then None else Some(a / b)
    case Percent => Some(Hundredths(a, b))
    case Compare(Gt) => Some(Truth(a > b))
    case Compare(Lt) => Some(Truth(a < b))
    case Compare(Eq) => Some(Truth(a == b))
    case Compare(Ge) => Some(Truth(a >= b))
    case Compare(Le) => Some(Truth(a <= b))
    case Compare(Ne) => Some(Truth(a != b))
    case _ => None
  }

  /* ---------- functions and names ---------- */

  datatype Function = IfFn | RoundFn | MaxFn | MinFn | Unknown

  function UpperChar(c: char): char {
    if 'a' <= c <= 'z' then ((c as int) - 32) as char else c
  }

  function Upper(s: string): string {
    seq(|s|, i requires 0 <= i < |s| => UpperChar(s[i]))
  }

  function FunctionOf(t: Token): Function {
    if !t.Ident? then Unknown
    else if Upper(t.name) == "IF" then IfFn
    else if Upper(t.name) == "ROUND" then RoundFn
    else if Upper(t.name) == "MAX" then MaxFn
    else if Upper(t.name) == "MIN" then MinFn
    else Unknown
  }

  /** A stray operator in operand position is looked up like a name, and no field has it. */
  function Lookup(env: Env, t: Token): Option<real> {
    if t.Ident? && t.name in env then env[t.name] else Some(0.0)
  }

  function Truncate(x: real): int { if x >= 0.0 then x.Floor else -(-x).Floor }

  function Extreme(max: bool, args: seq<real>): real
    requires args != []
  {
    if |args| == 1 then args[0] else
      var rest := Extreme(max, args[..|args| - 1]);
      var last := args[|args| - 1];
      if max then (if last > rest then last else rest) else (if last < rest then last else rest)
  }

  /* ---------- the grammar, as functions on the remaining tokens ---------- */

  function Expect(t: Token, toks: seq<Token>): (r: Parsed)
    ensures r.Ok? ==> |r.rest| < |toks|
  {
    if toks != [] && toks[0] == t then Ok(toks[1..], 0.0) else Fail(Syntax)
  }

  function Parse(level: nat, toks: seq<Token>, env: Env, execute: bool): (r: Parsed)
    requires level <= 3
    ensures r.Ok? ==> |r.rest| < |toks|
    decreases |toks|, 5 - level
  {
    if level == 3 then Unary(toks, env, execute) else
      var (rest, left) :- Parse(level + 1, toks, env, execute);
      Tail(level, rest, left, env, execute)
  }

  /** The loop over the operators of one level, to the left. */
  function Tail(level: nat, toks: seq<Token>, left: real, env: Env, execute: bool): (r: Parsed)
    requires level <= 3
    ensures r.Ok? ==> |r.rest| <= |toks|
    decreases |toks|, 6
  {
    if toks == [] || !IsOp(level, toks[0]) then Ok(toks, left) else
      var (rest, right) :- Parse(level + 1, toks[1..], env, execute);
      if !execute then Tail(level, rest, left, env, execute) else
        match Apply(toks[0], left, right)
        case None => Fail(Arithmetic)
        case Some(value) => Tail(level, rest, value, env, execute)
  }

  function Unary(toks: seq<Token>, env: Env, execute: bool): (r: Parsed)
    ensures r.Ok? ==> |r.rest| < |toks|
    decreases |toks|, 1
  {
    if toks != [] && toks[0] == Minus then
      var (rest, value) :- Unary(toks[1..], env, execute);
      Ok(rest, if execute then -value else 0.0)
    else if toks != [] && toks[0] == Plus then Unary(toks[1..], env, execute)
    else Primary(toks, env, execute)
  }

  function Primary(toks: seq<Token>, env: Env, execute: bool): (r: Parsed)
    ensures r.Ok? ==> |r.rest| < |toks|
    decreases |toks|, 0
  {
    if toks == [] then Fail(Syntax)
    else if toks[0] == LParen then
      var (rest, value) :- Parse(0, toks[1..], env, execute);
      var (after, _) :- Expect(RParen, rest);
      Ok(after, value)
    else if toks[0].Num? then Ok(toks[1..], toks[0].value)
    else if |toks| > 1 && toks[1] == LParen then
      (match FunctionOf(toks[0])
       case IfFn => IfCall(toks[2..], env, execute)
       case RoundFn => RoundCall(toks[2..], env, execute)
       case MaxFn => ExtremeCall(true, toks[2..], env, execute)
       case MinFn => ExtremeCall(false, toks[2..], env, execute)
       case Unknown => Fail(Syntax))
    else if execute then
      (match Lookup(env, toks[0])
       case None => Fail(Arithmetic)
       case Some(value) => Ok(toks[1..], value))
    else Ok(toks[1..], 0.0)
  }

  function IfCall(toks: seq<Token>, env: Env, execute: bool): (r: Parsed)
    ensures r.Ok? ==> |r.rest| < |toks|
    decreases |toks|, 7
  {
    var (rest1, condition) :- Parse(0, toks, env, execute);
    var holds := execute && condition != 0.0;
    var (rest2, _) :- Expect(Comma, rest1);
    var (rest3, whenTrue) :- Parse(0, rest2, env, execute && holds);
    var (rest4, _) :- Expect(Comma, rest3);
    var (rest5, whenFalse) :- Parse(0, rest4, env, execute && !holds);
    var (rest6, _) :- Expect(RParen, rest5);
    Ok(rest6, if holds then whenTrue else if execute then whenFalse else 0.0)
  }

  function RoundCall(toks: seq<Token>, env: Env, execute: bool): (r: Parsed)
    ensures r.Ok? ==> |r.rest| < |toks|
    decreases |toks|, 7
  {
    var (rest1, x) :- Parse(0, toks, env, execute);
    if rest1 != [] && rest1[0] == Comma then
      var (rest2, digits) :- Parse(0, rest1[1..], env, execute);
      var (rest3, _) :- Expect(RParen, rest2);
      Ok(rest3, if execute then RoundHalfUp(x, Truncate(digits)) else 0.0)
    else
      var (rest2, _) :- Expect(RParen, rest1);
      Ok(rest2, if execute then RoundHalfUp(x, 0) else 0.0)
  }

  function ExtremeCall(max: bool, toks: seq<Token>, env: Env, execute: bool): (r: Parsed)
    ensures r.Ok? ==> |r.rest| < |toks|
    decreases |toks|, 7
  {
    var (rest, first) :- Parse(0, toks, env, execute);
    MoreArgs(max, rest, [first], env, execute)
  }

  function MoreArgs(max: bool, toks: seq<Token>, args: seq<real>, env: Env, execute: bool): (r: Parsed)
    requires args != []
    ensures r.Ok? ==> |r.rest| < |toks|
    decreases |toks|, 8
  {
    if toks != [] && toks[0] == Comma then
      var (rest, value) :- Parse(0, toks[1..], env, execute);
      MoreArgs(max, rest, args + [value], env, execute)
    else
      var (rest, _) :- Expect(RParen, toks);
      Ok(rest, if execute then Extreme(max, args) else 0.0)
  }

  /* ---------- skip mode ---------- */

  /** Skip mode reads exactly what execute mode reads; it can only miss arithmetic errors. */
  ghost predicate SkipsSame(run: Parsed, skip: Parsed) {
    match skip
    case Ok(rest, _) => run == Fail(Arithmetic) || (run.Ok? && run.rest == rest)
    case Fail(e) => e == Syntax && run.Fail?
  }

  lemma {:induction false} SkipParse(level: nat, toks: seq<Token>, env: Env)
    requires level <= 3
    ensures SkipsSame(Parse(level, toks, env, true), Parse(level, toks, env, false))
    decreases |toks|, 6 - level
  {
    if level == 3 {
      SkipUnary(toks, env);
    } else {
      SkipParse(level + 1, toks, env);
      var run, skip := Parse(level + 1, toks, env, true), Parse(level + 1, toks, env, false);
      if run.Ok? {
        SkipTail(level, run.rest, run.value, skip.value, env);
      } else if skip.Ok? {
        SkipNeverFailsArithmetic(level, skip.rest, skip.value, env);
      }
    }
  }

  /** In skip mode the operator loop fails only on syntax. */
  lemma SkipNeverFailsArithmetic(level: nat, toks: seq<Token>, left: real, env: Env)
    requires level <= 3
    ensures Tail(level, toks, left, env, false) != Fail(Arithmetic)
    decreases |toks|, 6
  {
    SkipTail(level, toks, left, left, env);
  }

  lemma {:induction false} SkipTail(level: nat, toks: seq<Token>, left: real, skipped: real, env: Env)
    requires level <= 3
    ensures SkipsSame(Tail(level, toks, left, env, true), Tail(level, toks, skipped, env, false))
    decreases |toks|, 5
  {
    if toks != [] && IsOp(level, toks[0]) {
      SkipParse(level + 1, toks[1..], env);
      var run, skip := Parse(level + 1, toks[1..], env, true), Parse(level + 1, toks[1..], env, false);
      if skip.Ok? {
        var value := if run.Ok? then Apply(toks[0], left, run.value) else None;
        SkipTail(level, skip.rest, if value.Some? then value.value else left, skipped, env);
      }
    }
  }

  lemma {:induction false} SkipUnary(toks: seq<Token>, env: Env)
    ensures SkipsSame(Unary(toks, env, true), Unary(toks, env, false))
    decreases |toks|, 2
  {
    if toks != [] && (toks[0] == Minus || toks[0] == Plus) {
      SkipUnary(toks[1..], env);
    } else {
      SkipPrimary(toks, env);
    }
  }

  lemma {:induction false} SkipPrimary(toks: seq<Token>, env: Env)
    ensures SkipsSame(Primary(toks, env, true), Primary(toks, env, false))
    decreases |toks|, 1
  {
    if toks != [] && toks[0] == LParen {
      SkipParse(0, toks[1..], env);
    } else if |toks| > 1 && !toks[0].Num? && toks[1] == LParen {
      SkipCall(toks, env);
    }
  }

  lemma {:induction false} SkipCall(toks: seq<Token>, env: Env)
    requires |toks| > 1 && toks[0] != LParen && !toks[0].Num? && toks[1] == LParen
    ensures SkipsSame(Primary(toks, env, true), Primary(toks, env, false))
    decreases |toks|, 0
  {
    match FunctionOf(toks[0])
    case IfFn => SkipIf(toks[2..], env);
    case RoundFn => SkipRound(toks[2..], env);
    case MaxFn => SkipExtreme(true, toks[2..], env);
    case MinFn => SkipExtreme(false, toks[2..], env);
    case Unknown =>
  }

  lemma {:induction false} SkipIf(toks: seq<Token>, env: Env)
    ensures SkipsSame(IfCall(toks, env, true), IfCall(toks, env, false))
    decreases |toks|, 7
  {
    SkipParse(0, toks, env);
    var first := Parse(0, toks, env, false);
    if first.Ok? && Expect(Comma, first.rest).Ok? {
      var rest2 := first.rest[1..];
      SkipParse(0, rest2, env);
      var second := Parse(0, rest2, env, false);
      if second.Ok? && Expect(Comma, second.rest).Ok? {
        SkipParse(0, second.rest[1..], env);
      }
    }
  }

  lemma {:induction false} SkipRound(toks: seq<Token>, env: Env)
    ensures SkipsSame(RoundCall(toks, env, true), RoundCall(toks, env, false))
    decreases |toks|, 7
  {
    SkipParse(0, toks, env);
    var first := Parse(0, toks, env, false);
    if first.Ok? && first.rest != [] {
      SkipParse(0, first.rest[1..], env);
    }
  }

  lemma {:induction false} SkipExtreme(max: bool, toks: seq<Token>, env: Env)
    ensures SkipsSame(ExtremeCall(max, toks, env, true), ExtremeCall(max, toks, env, false))
    decreases |toks|, 7
  {
    SkipParse(0, toks, env);
    var run, skip := Parse(0, toks, env, true), Parse(0, toks, env, false);
    if skip.Ok? {
      SkipMoreArgs(max, skip.rest, [if run.Ok? then run.value else 0.0], [skip.value], env);
    }
  }

  lemma {:induction false} SkipMoreArgs(max: bool, toks: seq<Token>, args: seq<real>, skipped: seq<real>, env: Env)
    requires args != [] && skipped != []
    ensures SkipsSame(MoreArgs(max, toks, args, env, true), MoreArgs(max, toks, skipped, env, false))
    decreases |toks|, 8
  {
    if toks != [] && toks[0] == Comma {
      SkipParse(0, toks[1..], env);
      var run, skip := Parse(0, toks[1..], env, true), Parse(0, toks[1..], env, false);
      if skip.Ok? {
        SkipMoreArgs(max, skip.rest, args + [if run.Ok? then run.value else 0.0], skipped + [skip.value], env);
      }
    }
  }
}
