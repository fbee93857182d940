/** The evaluator of form expressions reads nothing but printed trees: whatever it accepts is the print
    of a tree, with the value of that tree (asoud_erp/services/form_schema.py:529-646). */
module FormReading {
  import opened Basics
  import opened FormExpression
  import opened FormPrinting

  /** The tokens are the print of e, where an operand of the level stands, and what is left. */
  ghost predicate Reads(level: nat, toks: seq<Token>, e: Expr, r: Parsed, env: Env, execute: bool) {
    && r.Ok? && WellFormed(e) && Binding(e) >= level
    && toks == Plain(e) + r.rest && Value(e, env, execute) == Some(r.value)
  }

  lemma {:induction false} ReadOperand(level: nat, toks: seq<Token>, env: Env, execute: bool) returns (e: Expr)
    requires level <= 3 && Parse(level, toks, env, execute).Ok?
    ensures Reads(level, toks, e, Parse(level, toks, env, execute), env, execute)
    decreases |toks|, 8 - level
  {
    if level == 3 {
      e := ReadUnary(toks, env, execute);
    } else {
      var first := ReadOperand(level + 1, toks, env, execute);
      e := ReadTail(level, toks, first, Parse(level + 1, toks, env, execute), env, execute);
    }
  }

  lemma PlainWhereItFits(level: nat, e: Expr)
    requires Binding(e) >= level
    ensures Print(level, e) == Plain(e)
  {
  }

  /** One more operator and operand to the left-hand side read so far. */
  lemma BinaryReads(level: nat, toks: seq<Token>, left: Expr, l: Parsed, right: Expr, env: Env, execute: bool)
    returns (e: Expr)
    requires level <= 2 && Reads(level, toks, left, l, env, execute)
    requires l.rest != [] && IsOp(level, l.rest[0])
    requires Reads(level + 1, l.rest[1..], right, Parse(level + 1, l.rest[1..], env, execute), env, execute)
    requires execute ==> Apply(l.rest[0], l.value, Parse(level + 1, l.rest[1..], env, execute).value).Some?
    ensures var r := Parse(level + 1, l.rest[1..], env, execute);
      var value := if execute then Apply(l.rest[0], l.value, r.value).value else l.value;
      Reads(level, toks, e, Ok(r.rest, value), env, execute)
  {
    var op, r := l.rest[0], Parse(level + 1, l.rest[1..], env, execute);
    e := Bin(op, left, right);
    PlainWhereItFits(level, left);
    PlainWhereItFits(level + 1, right);
    assert OpLevel(op) == level;
    assert l.rest == [op] + (Plain(right) + r.rest);
    Regroup(Plain(left), op, Plain(right), r.rest);
  }

  lemma {:induction false} ReadTail(level: nat, toks: seq<Token>, left: Expr, l: Parsed, env: Env, execute: bool)
    returns (e: Expr)
    requires level <= 2 && Reads(level, toks, left, l, env, execute) && |l.rest| < |toks|
    requires Tail(level, l.rest, l.value, env, execute).Ok?
    ensures Reads(level, toks, e, Tail(level, l.rest, l.value, env, execute), env, execute)
    decreases |l.rest|, 11
  {
    if l.rest == [] || !IsOp(level, l.rest[0]) {
      e := left;
    } else {
      var right := ReadOperand(level + 1, l.rest[1..], env, execute);
      var r := Parse(level + 1, l.rest[1..], env, execute);
      var more := BinaryReads(level, toks, left, l, right, env, execute);
      var value := if execute then Apply(l.rest[0], l.value, r.value).value else l.value;
      e := ReadTail(level, toks, more, Ok(r.rest, value), env, execute);
    }
  }

  lemma {:induction false} ReadUnary(toks: seq<Token>, env: Env, execute: bool) returns (e: Expr)
    requires Unary(toks, env, execute).Ok?
    ensures Reads(3, toks, e, Unary(toks, env, execute), env, execute)
    decreases |toks|, 3
  {
    if toks != [] && (toks[0] == Minus || toks[0] == Plus) {
      var arg := ReadUnary(toks[1..], env, execute);
      PlainWhereItFits(3, arg);
      e := if toks[0] == Minus then Neg(arg) else Pos(arg);
      assert toks == [toks[0]] + toks[1..];
    } else {
      e := ReadPrimary(toks, env, execute);
    }
  }

  lemma {:induction false} ReadPrimary(toks: seq<Token>, env: Env, execute: bool) returns (e: Expr)
    requires Primary(toks, env, execute).Ok? && (toks != [] ==> toks[0] != Minus && toks[0] != Plus)
    ensures Reads(4, toks, e, Primary(toks, env, execute), env, execute)
    decreases |toks|, 2
  {
    if toks[0] == LParen {
      e := ReadGroup(toks, env, execute);
    } else if toks[0].Num? {
      e := Lit(toks[0].value);
      assert toks == [toks[0]] + toks[1..];
    } else if |toks| > 1 && toks[1] == LParen {
      e := ReadCall(toks, env, execute);
    } else {
      e := Leaf(toks[0]);
      assert toks == [toks[0]] + toks[1..];
    }
  }

  lemma {:induction false} ReadGroup(toks: seq<Token>, env: Env, execute: bool) returns (e: Expr)
    requires toks != [] && toks[0] == LParen && Primary(toks, env, execute).Ok?
    ensures Reads(4, toks, e, Primary(toks, env, execute), env, execute)
    decreases |toks|, 1
  {
    var arg := ReadArgument(toks[1..], env, execute);
    var inner := Parse(0, toks[1..], env, execute);
    e := Group(arg);
    SplitAt(toks[1..], Plain(arg), inner.rest);
    assert toks == [LParen] + toks[1..];
  }

  /** An argument, as it is printed. */
  lemma {:induction false} ReadArgument(toks: seq<Token>, env: Env, execute: bool) returns (e: Expr)
    requires Parse(0, toks, env, execute).Ok?
    ensures Reads(0, toks, e, Parse(0, toks, env, execute), env, execute) && Print(0, e) == Plain(e)
    decreases |toks|, 9
  {
    e := ReadOperand(0, toks, env, execute);
  }

  /** A print followed by a token. */
  lemma SplitAt(toks: seq<Token>, a: seq<Token>, rest: seq<Token>)
    requires toks == a + rest && rest != []
    ensures toks == a + ([rest[0]] + rest[1..])
  {
  }

  lemma {:induction false} ReadCall(toks: seq<Token>, env: Env, execute: bool) returns (e: Expr)
    requires |toks| > 1 && !toks[0].Num? && toks[0] != LParen && toks[1] == LParen && Primary(toks, env, execute).Ok?
    ensures Reads(4, toks, e, Primary(toks, env, execute), env, execute)
    decreases |toks|, 1
  {
    var name, args := toks[0].name, toks[2..];
    assert toks == Call(name) + args;
    match FunctionOf(toks[0])
    case IfFn => e := ReadIf(name, args, env, execute);
    case RoundFn => e := ReadRound(name, args, env, execute);
    case MaxFn => e := ReadExtreme(name, true, args, env, execute);
    case MinFn => e := ReadExtreme(name, false, args, env, execute);
  }

  /** The tokens after the name of a call. */
  ghost predicate ReadsCall(toks: seq<Token>, e: Expr, name: string, r: Parsed, env: Env, execute: bool) {
    && r.Ok? && WellFormed(e) && Binding(e) == 4
    && Call(name) + toks == Plain(e) + r.rest && Value(e, env, execute) == Some(r.value)
  }

  lemma IfText(name: string, c: seq<Token>, a: seq<Token>, b: seq<Token>, s: seq<Token>)
    ensures (Call(name) + c + [Comma] + a + [Comma] + b + [RParen]) + s
         == Call(name) + (c + ([Comma] + (a + ([Comma] + (b + ([RParen] + s))))))
  {
  }

  lemma IfReads(name: string, toks: seq<Token>, c: Expr, first: Parsed, a: Expr, second: Parsed, b: Expr,
                third: Parsed, env: Env, execute: bool)
    requires Names(name, IfFn) && first == Parse(0, toks, env, execute) && Reads(0, toks, c, first, env, execute)
    requires Expect(Comma, first.rest).Ok? && second == Parse(0, first.rest[1..], env, execute && first.value != 0.0)
    requires Reads(0, first.rest[1..], a, second, env, execute && first.value != 0.0)
    requires Expect(Comma, second.rest).Ok? && third == Parse(0, second.rest[1..], env, execute && first.value == 0.0)
    requires Reads(0, second.rest[1..], b, third, env, execute && first.value == 0.0) && Expect(RParen, third.rest).Ok?
    ensures ReadsCall(toks, If(name, c, a, b), name, IfCall(toks, env, execute), env, execute)
  {
    SplitAt(toks, Plain(c), first.rest);
    SplitAt(first.rest[1..], Plain(a), second.rest);
    SplitAt(second.rest[1..], Plain(b), third.rest);
    PlainWhereItFits(0, c);
    PlainWhereItFits(0, a);
    PlainWhereItFits(0, b);
    IfText(name, Plain(c), Plain(a), Plain(b), third.rest[1..]);
  }

  lemma {:induction false} ReadIf(name: string, toks: seq<Token>, env: Env, execute: bool) returns (e: Expr)
    requires Names(name, IfFn) && IfCall(toks, env, execute).Ok?
    ensures ReadsCall(toks, e, name, IfCall(toks, env, execute), env, execute)
    decreases |toks|, 10
  {
    var first := Parse(0, toks, env, execute);
    var holds, other := execute && first.value != 0.0, execute && first.value == 0.0;
    var second := Parse(0, first.rest[1..], env, holds);
    var third := Parse(0, second.rest[1..], env, other);
    var c := ReadArgument(toks, env, execute);
    var a := ReadArgument(first.rest[1..], env, holds);
    var b := ReadArgument(second.rest[1..], env, other);
    e := If(name, c, a, b);
    IfReads(name, toks, c, first, a, second, b, third, env, execute);
  }

  lemma RoundAlone(name: string, toks: seq<Token>, x: Expr, env: Env, execute: bool)
    requires Names(name, RoundFn) && Reads(0, toks, x, Parse(0, toks, env, execute), env, execute)
    requires Expect(RParen, Parse(0, toks, env, execute).rest).Ok?
    ensures ReadsCall(toks, Round(name, x, None), name, RoundCall(toks, env, execute), env, execute)
  {
    var first := Parse(0, toks, env, execute);
    SplitAt(toks, Plain(x), first.rest);
    PlainWhereItFits(0, x);
    assert (Call(name) + Plain(x) + [] + [RParen]) + first.rest[1..]
           == Call(name) + (Plain(x) + ([RParen] + first.rest[1..]));
  }

  lemma RoundWithDigits(name: string, toks: seq<Token>, x: Expr, first: Parsed, d: Expr, second: Parsed, env: Env,
                        execute: bool)
    requires Names(name, RoundFn) && first == Parse(0, toks, env, execute) && Reads(0, toks, x, first, env, execute)
    requires Expect(Comma, first.rest).Ok? && second == Parse(0, first.rest[1..], env, execute)
    requires Reads(0, first.rest[1..], d, second, env, execute) && Expect(RParen, second.rest).Ok?
    ensures ReadsCall(toks, Round(name, x, Some(d)), name, RoundCall(toks, env, execute), env, execute)
  {
    SplitAt(toks, Plain(x), first.rest);
    SplitAt(first.rest[1..], Plain(d), second.rest);
    PlainWhereItFits(0, x);
    PlainWhereItFits(0, d);
    RoundText(name, Plain(x), Plain(d), second.rest[1..]);
  }

  lemma {:induction false} ReadRound(name: string, toks: seq<Token>, env: Env, execute: bool) returns (e: Expr)
    requires Names(name, RoundFn) && RoundCall(toks, env, execute).Ok?
    ensures ReadsCall(toks, e, name, RoundCall(toks, env, execute), env, execute)
    decreases |toks|, 10
  {
    var x := ReadArgument(toks, env, execute);
    var first := Parse(0, toks, env, execute);
    if first.rest[0] == Comma {
      var d := ReadArgument(first.rest[1..], env, execute);
      e := Round(name, x, Some(d));
      RoundWithDigits(name, toks, x, first, d, Parse(0, first.rest[1..], env, execute), env, execute);
    } else {
      e := Round(name, x, None);
      RoundAlone(name, toks, x, env, execute);
    }
  }

  lemma {:induction false} ReadExtreme(name: string, max: bool, toks: seq<Token>, env: Env, execute: bool)
    returns (e: Expr)
    requires Names(name, if max then MaxFn else MinFn) && ExtremeCall(max, toks, env, execute).Ok?
    ensures ReadsCall(toks, e, name, ExtremeCall(max, toks, env, execute), env, execute)
    decreases |toks|, 10
  {
    var x := ReadArgument(toks, env, execute);
    var first := Parse(0, toks, env, execute);
    ValuedMore([], [], x, first.value, env, execute);
    assert [] + [x] == [x] && [] + [first.value] == [first.value];
    var args, values := ReadMore(max, first.rest, [x], [first.value], env, execute);
    assert args[0] == args[..1][0] == x;
    e := Extremum(name, max, args);
    ExtremumReads(name, max, toks, x, args, values, env, execute);
  }

  lemma ExtremumReads(name: string, max: bool, toks: seq<Token>, x: Expr, args: seq<Expr>, values: seq<real>,
                      env: Env, execute: bool)
    requires Names(name, if max then MaxFn else MinFn) && args != [] && args[0] == x
    requires Reads(0, toks, x, Parse(0, toks, env, execute), env, execute)
    requires ReadsMore(max, Parse(0, toks, env, execute).rest, 1, args, values,
               ExtremeCall(max, toks, env, execute), env, execute)
    ensures ReadsCall(toks, Extremum(name, max, args), name, ExtremeCall(max, toks, env, execute), env, execute)
  {
    PlainWhereItFits(0, x);
    ExtremumText(name, Plain(x), PrintMore(args, 1), ExtremeCall(max, toks, env, execute).rest);
  }

  lemma ExtremumText(name: string, a: seq<Token>, more: seq<Token>, s: seq<Token>)
    ensures (Call(name) + (a + more) + [RParen]) + s == Call(name) + (a + (more + ([RParen] + s)))
  {
  }

  /** Arguments and the values they have, when they are evaluated. */
  ghost predicate Valued(args: seq<Expr>, values: seq<real>, env: Env, execute: bool) {
    && (forall i | 0 <= i < |args| :: WellFormed(args[i]))
    && (execute ==> Meanings(args, env) == Some(values))
  }

  lemma ValuedMore(args: seq<Expr>, values: seq<real>, x: Expr, value: real, env: Env, execute: bool)
    requires Valued(args, values, env, execute) && WellFormed(x) && Value(x, env, execute) == Some(value)
    ensures Valued(args + [x], values + [value], env, execute)
  {
    var longer := args + [x];
    assert longer[..|args|] == args && longer[..|longer|] == longer;
    MeaningsOfPrefix(longer, |args|, env);
  }

  /** What is read of an argument list: all arguments with their values, up to the parenthesis. */
  ghost predicate ReadsMore(max: bool, toks: seq<Token>, n: nat, all: seq<Expr>, values: seq<real>, r: Parsed,
                            env: Env, execute: bool) {
    && r.Ok? && n <= |all| && values != [] && Valued(all, values, env, execute)
    && toks == PrintMore(all, n) + ([RParen] + r.rest)
    && r.value == (if execute then Extreme(max, values) else 0.0)
  }

  lemma OneMoreRead(max: bool, toks: seq<Token>, x: Expr, n: nat, all: seq<Expr>, values: seq<real>, r: Parsed,
                    env: Env, execute: bool)
    requires toks != [] && toks[0] == Comma && n < |all| && all[n] == x
    requires Reads(0, toks[1..], x, Parse(0, toks[1..], env, execute), env, execute)
    requires ReadsMore(max, Parse(0, toks[1..], env, execute).rest, n + 1, all, values, r, env, execute)
    ensures ReadsMore(max, toks, n, all, values, r, env, execute)
  {
    PlainWhereItFits(0, x);
    MoreText(Plain(x), PrintMore(all, n + 1), r.rest);
    assert toks == [Comma] + toks[1..];
  }

  /** The arguments after those read so far. */
  lemma {:induction false} ReadMore(max: bool, toks: seq<Token>, args: seq<Expr>, values: seq<real>, env: Env,
                                    execute: bool)
    returns (all: seq<Expr>, allValues: seq<real>)
    requires args != [] && values != [] && MoreArgs(max, toks, values, env, execute).Ok?
             && Valued(args, values, env, execute)
    ensures |args| <= |all| && all[..|args|] == args
    ensures ReadsMore(max, toks, |args|, all, allValues, MoreArgs(max, toks, values, env, execute), env, execute)
    decreases |toks|, 10
  {
    if toks != [] && toks[0] == Comma {
      var x := ReadArgument(toks[1..], env, execute);
      var first := Parse(0, toks[1..], env, execute);
      var longer := args + [x];
      ValuedMore(args, values, x, first.value, env, execute);
      all, allValues := ReadMore(max, first.rest, longer, values + [first.value], env, execute);
      StartsWith(all, args, x);
      OneMoreRead(max, toks, x, |args|, all, allValues, MoreArgs(max, toks, values, env, execute), env, execute);
    } else {
      all, allValues := args, values;
      assert toks == [RParen] + toks[1..];
    }
  }

  lemma StartsWith(all: seq<Expr>, args: seq<Expr>, x: Expr)
    requires |args| + 1 <= |all| && all[..|args| + 1] == args + [x]
    ensures all[..|args|] == args && all[|args|] == x
  {
    assert all[|args|] == all[..|args| + 1][|args|];
    assert all[..|args|] == all[..|args| + 1][..|args|];
  }

  lemma MoreText(a: seq<Token>, more: seq<Token>, s: seq<Token>)
    ensures [Comma] + (a + (more + ([RParen] + s))) == ([Comma] + a + more) + ([RParen] + s)
  {
  }

  /** Exactly the prints of well-formed trees that have a value are read to the end, with that value. */
  lemma ReadsExactly(toks: seq<Token>, env: Env, value: real)
    ensures Parse(0, toks, env, true) == Ok([], value)
            <==> exists e :: WellFormed(e) && Print(0, e) == toks && Meaning(e, env) == Some(value)
  {
    if Parse(0, toks, env, true) == Ok([], value) {
      var e := ReadArgument(toks, env, true);
      assert Plain(e) + [] == Plain(e);
    }
    if e :| WellFormed(e) && Print(0, e) == toks && Meaning(e, env) == Some(value) {
      ParsePrinted(e, env);
    }
  }

  /** Whatever prefix is accepted is the print of a tree with the value given. */
  lemma AcceptedPrefix(toks: seq<Token>, env: Env) returns (e: Expr)
    requires Parse(0, toks, env, true).Ok?
    ensures WellFormed(e) && toks == Print(0, e) + Parse(0, toks, env, true).rest
    ensures Meaning(e, env) == Some(Parse(0, toks, env, true).value)
  {
    e := ReadArgument(toks, env, true);
  }
}
