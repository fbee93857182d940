/** What the text of an expression means in numbers: operators and how they bind, MAX and MIN, ROUND and
    the names of the functions (asoud_erp/services/form_schema.py:529-646). */
module FormArithmetic {
  import opened Basics
  import opened Rounding
  import opened FormExpression
  import opened FormPrinting

  /* ---------- operators ---------- */

  predicate IsOperator(t: Token) {
    t.Compare? || t == Plus || t == Minus || t == Star || t == Slash || t == Percent
  }

  /** How closely an operator binds. */
  function Closeness(op: Token): nat {
    if op.Compare? then 0 else if op == Plus || op == Minus then 1 else 2
  }

  function Result(x: Option<real>): Parsed {
    match x
    case None => Fail(Arithmetic)
    case Some(v) => Ok([], v)
  }

  lemma OperatorsAreRead(op: Token)
    requires IsOperator(op)
    ensures OpLevel(op) == Closeness(op) && (IsOp(0, op) || IsOp(1, op) || IsOp(2, op))
  {
  }

  lemma LitText(level: nat, x: real)
    requires level <= 3
    ensures Print(level, Lit(x)) == [Num(x)]
  {
  }

  lemma BinText(op: Token, a: Expr, b: Expr)
    requires IsOperator(op)
    ensures Print(0, Bin(op, a, b)) == Plain(Bin(op, a, b))
         == Print(Closeness(op), a) + [op] + Print(Closeness(op) + 1, b)
  {
    OperatorsAreRead(op);
  }

  lemma BinRead(op: Token, a: Expr, b: Expr, env: Env)
    requires IsOperator(op) && WellFormed(a) && WellFormed(b)
    ensures Parse(0, Print(Closeness(op), a) + [op] + Print(Closeness(op) + 1, b), env, true)
         == Result(Both(op, Meaning(a, env), Meaning(b, env)))
  {
    OperatorsAreRead(op);
    BinText(op, a, b);
    ParsePrinted(Bin(op, a, b), env);
  }

  lemma TwoOperands(x: real, op: Token, y: real, env: Env)
    requires IsOperator(op)
    ensures Parse(0, [Num(x), op, Num(y)], env, true) == Result(Apply(op, x, y))
  {
    BinRead(op, Lit(x), Lit(y), env);
    LitText(Closeness(op), x);
    LitText(Closeness(op) + 1, y);
    assert [Num(x)] + [op] + [Num(y)] == [Num(x), op, Num(y)];
  }

  /** The operators between two numbers: arithmetic, division only by what is not zero, a percentage, and
      comparisons that are one or zero. */
  lemma OperatorsMean(x: real, y: real, env: Env)
    ensures Parse(0, [Num(x), Plus, Num(y)], env, true) == Ok([], x + y)
    ensures Parse(0, [Num(x), Minus, Num(y)], env, true) == Ok([], x - y)
    ensures Parse(0, [Num(x), Star, Num(y)], env, true) == Ok([], x * y)
    ensures Parse(0, [Num(x), Slash, Num(y)], env, true) == if y == 0.0 then Fail(Arithmetic) else Ok([], x / y)
    ensures Parse(0, [Num(x), Percent, Num(y)], env, true) == Ok([], x * y / 100.0)
  {
    TwoOperands(x, Plus, y, env);
    TwoOperands(x, Minus, y, env);
    TwoOperands(x, Star, y, env);
    QuotientMeans(x, y, env);
    PercentMeans(x, y, env);
  }

  lemma QuotientMeans(x: real, y: real, env: Env)
    ensures Parse(0, [Num(x), Slash, Num(y)], env, true) == if y == 0.0 then Fail(Arithmetic) else Ok([], x / y)
  {
    TwoOperands(x, Slash, y, env);
  }

  lemma PercentMeans(x: real, y: real, env: Env)
    ensures Parse(0, [Num(x), Percent, Num(y)], env, true) == Ok([], x * y / 100.0)
  {
    TwoOperands(x, Percent, y, env);
  }

  lemma ComparisonsMean(x: real, y: real, env: Env)
    ensures Parse(0, [Num(x), Compare(Gt), Num(y)], env, true) == Ok([], if x > y then 1.0 else 0.0)
    ensures Parse(0, [Num(x), Compare(Lt), Num(y)], env, true) == Ok([], if x < y then 1.0 else 0.0)
    ensures Parse(0, [Num(x), Compare(Eq), Num(y)], env, true) == Ok([], if x == y then 1.0 else 0.0)
    ensures Parse(0, [Num(x), Compare(Ge), Num(y)], env, true) == Ok([], if x >= y then 1.0 else 0.0)
    ensures Parse(0, [Num(x), Compare(Le), Num(y)], env, true) == Ok([], if x <= y then 1.0 else 0.0)
    ensures Parse(0, [Num(x), Compare(Ne), Num(y)], env, true) == Ok([], if x != y then 1.0 else 0.0)
  {
    OrdersMean(x, y, env);
    TwoOperands(x, Compare(Eq), y, env);
    TwoOperands(x, Compare(Ne), y, env);
  }

  lemma OrdersMean(x: real, y: real, env: Env)
    ensures Parse(0, [Num(x), Compare(Gt), Num(y)], env, true) == Ok([], if x > y then 1.0 else 0.0)
    ensures Parse(0, [Num(x), Compare(Lt), Num(y)], env, true) == Ok([], if x < y then 1.0 else 0.0)
    ensures Parse(0, [Num(x), Compare(Ge), Num(y)], env, true) == Ok([], if x >= y then 1.0 else 0.0)
    ensures Parse(0, [Num(x), Compare(Le), Num(y)], env, true) == Ok([], if x <= y then 1.0 else 0.0)
  {
    TwoOperands(x, Compare(Gt), y, env);
    TwoOperands(x, Compare(Lt), y, env);
    TwoOperands(x, Compare(Ge), y, env);
    TwoOperands(x, Compare(Le), y, env);
  }

  function Both(op: Token, x: Option<real>, y: Option<real>): Option<real> {
    if x == None || y == None then None else Apply(op, x.value, y.value)
  }

  /** Products bind before sums and sums before comparisons; operators of one kind go from left to right. */
  lemma OperatorsBind(x: real, o: Token, y: real, p: Token, z: real, env: Env)
    requires IsOperator(o) && IsOperator(p)
    ensures Parse(0, [Num(x), o, Num(y), p, Num(z)], env, true)
         == if Closeness(o) >= Closeness(p) then Result(Both(p, Apply(o, x, y), Some(z)))
            else Result(Both(o, Some(x), Apply(p, y, z)))
  {
    if Closeness(o) >= Closeness(p) {
      var inner := Bin(o, Lit(x), Lit(y));
      InnerText(Closeness(p), x, o, y);
      LitText(Closeness(p) + 1, z);
      OperatorsAreRead(o);
      BinRead(p, inner, Lit(z), env);
      assert [Num(x), o, Num(y)] + [p] + [Num(z)] == [Num(x), o, Num(y), p, Num(z)];
    } else {
      var inner := Bin(p, Lit(y), Lit(z));
      InnerText(Closeness(o) + 1, y, p, z);
      LitText(Closeness(o), x);
      OperatorsAreRead(p);
      BinRead(o, Lit(x), inner, env);
      assert [Num(x)] + [o] + [Num(y), p, Num(z)] == [Num(x), o, Num(y), p, Num(z)];
    }
  }

  lemma InnerText(level: nat, x: real, op: Token, y: real)
    requires IsOperator(op) && level <= Closeness(op)
    ensures Print(level, Bin(op, Lit(x), Lit(y))) == [Num(x), op, Num(y)]
  {
    OperatorsAreRead(op);
    BinText(op, Lit(x), Lit(y));
    LitText(Closeness(op), x);
    LitText(Closeness(op) + 1, y);
    assert [Num(x)] + [op] + [Num(y)] == [Num(x), op, Num(y)];
  }

  /* ---------- names ---------- */

  predicate Spells(s: string, upper: string) {
    |s| == |upper| && forall i | 0 <= i < |s| :: s[i] == upper[i] || (s[i] as int == upper[i] as int + 32)
  }

  lemma UpperSpells(s: string, upper: string)
    requires forall i | 0 <= i < |upper| :: 'A' <= upper[i] <= 'Z'
    ensures Upper(s) == upper <==> Spells(s, upper)
  {
    if Spells(s, upper) {
      forall i | 0 <= i < |s| ensures Upper(s)[i] == upper[i] {
      }
    }
    if Upper(s) == upper {
      forall i | 0 <= i < |s| ensures s[i] == upper[i] || (s[i] as int == upper[i] as int + 32) {
        assert Upper(s)[i] == upper[i];
      }
    }
  }

  /** The four functions, in whatever mixture of capital and small letters. */
  lemma FunctionNames(s: string)
    ensures FunctionOf(Ident(s)) == IfFn <==> Spells(s, "IF")
    ensures FunctionOf(Ident(s)) == RoundFn <==> Spells(s, "ROUND")
    ensures FunctionOf(Ident(s)) == MaxFn <==> Spells(s, "MAX")
    ensures FunctionOf(Ident(s)) == MinFn <==> Spells(s, "MIN")
  {
    UpperSpells(s, "IF");
    UpperSpells(s, "ROUND");
    UpperSpells(s, "MAX");
    UpperSpells(s, "MIN");
    assert "MAX"[1] != "MIN"[1];
  }

  /** A field that is not there counts as zero, one that is no number is an error. */
  lemma NamesMean(name: string, env: Env)
    ensures Parse(0, [Ident(name)], env, true)
         == if name !in env then Ok([], 0.0) else Result(env[name])
  {
    ParsePrinted(Leaf(Ident(name)), env);
    assert Print(0, Leaf(Ident(name))) == [Ident(name)];
  }

  /* ---------- MAX and MIN ---------- */

  lemma {:induction false} ExtremeMeans(max: bool, args: seq<real>)
    requires args != []
    ensures Extreme(max, args) in args
    ensures forall x | x in args :: if max then x <= Extreme(max, args) else Extreme(max, args) <= x
  {
    if |args| > 1 {
      var before, last := args[..|args| - 1], args[|args| - 1];
      ExtremeMeans(max, before);
      assert forall x :: x in args <==> x in before || x == last;
    }
  }

  /** The value of an argument by itself. */
  function ReadAlone(e: Expr, env: Env): Parsed
    requires WellFormed(e)
  {
    Parse(0, Print(0, e), env, true)
  }

  lemma {:induction false} MeaningsAlone(args: seq<Expr>, env: Env)
    requires forall i | 0 <= i < |args| :: WellFormed(args[i])
    ensures Meanings(args, env).Some? <==> forall i | 0 <= i < |args| :: Meaning(args[i], env).Some?
    ensures Meanings(args, env).Some? ==>
      forall i | 0 <= i < |args| :: Meaning(args[i], env) == Some(Meanings(args, env).value[i])
  {
    if args != [] {
      var before := args[..|args| - 1];
      MeaningsAlone(before, env);
      assert forall i | 0 <= i < |before| :: before[i] == args[i];
      assert Meanings(args, env).Some? ==> Meanings(before, env).Some? && Meaning(args[|args| - 1], env).Some?;
    }
  }

  /** MAX and MIN fail exactly when an argument does; otherwise the result is the value of one of the
      arguments, and no argument is larger, or smaller. */
  lemma ExtremumRead(name: string, max: bool, args: seq<Expr>, env: Env)
    requires WellFormed(Extremum(name, max, args))
    ensures var r := ReadAlone(Extremum(name, max, args), env);
      if exists i :: 0 <= i < |args| && ReadAlone(args[i], env).Fail? then r == Fail(Arithmetic)
      else
        && r.Ok? && r.rest == []
        && (exists i :: 0 <= i < |args| && ReadAlone(args[i], env).value == r.value)
        && (forall i | 0 <= i < |args| ::
              if max then ReadAlone(args[i], env).value <= r.value else r.value <= ReadAlone(args[i], env).value)
  {
    ParsePrinted(Extremum(name, max, args), env);
    MeaningsAlone(args, env);
    forall i | 0 <= i < |args| ensures ReadAlone(args[i], env) == Result(Meaning(args[i], env)) {
      ParsePrinted(args[i], env);
    }
    if forall i | 0 <= i < |args| :: Meaning(args[i], env).Some? {
      var values := Meanings(args, env).value;
      ExtremeMeans(max, values);
      var i :| 0 <= i < |values| && values[i] == Extreme(max, values);
      assert ReadAlone(args[i], env).value == Extreme(max, values);
      forall i | 0 <= i < |args|
        ensures if max then ReadAlone(args[i], env).value <= Extreme(max, values)
                else Extreme(max, values) <= ReadAlone(args[i], env).value
      {
        assert values[i] in values;
      }
    }
  }

  /** IF(x > y, x, y) reads like MAX(x, y), and with the branches changed like MIN(x, y). */
  lemma ExtremeIsChoice(choose: string, name: string, max: bool, x: Expr, y: Expr, env: Env)
    requires WellFormed(x) && WellFormed(y) && Names(choose, IfFn) && Names(name, if max then MaxFn else MinFn)
    ensures ReadAlone(If(choose, Bin(Compare(Gt), x, y), if max then x else y, if max then y else x), env)
         == ReadAlone(Extremum(name, max, [x, y]), env)
  {
    ParsePrinted(If(choose, Bin(Compare(Gt), x, y), if max then x else y, if max then y else x), env);
    ParsePrinted(Extremum(name, max, [x, y]), env);
    MeaningsOfTwo(name, max, x, y, env);
    ChoiceMeans(choose, max, x, y, env);
  }

  lemma ChoiceMeans(choose: string, max: bool, x: Expr, y: Expr, env: Env)
    requires WellFormed(x) && WellFormed(y) && Names(choose, IfFn)
    ensures Meaning(If(choose, Bin(Compare(Gt), x, y), if max then x else y, if max then y else x), env)
         == Larger(max, Meaning(x, env), Meaning(y, env))
  {
    assert Meaning(Bin(Compare(Gt), x, y), env)
        == Both(Compare(Gt), Meaning(x, env), Meaning(y, env));
  }

  /** The larger or the smaller of two values, if there are two. */
  function Larger(max: bool, x: Option<real>, y: Option<real>): Option<real> {
    if x == None || y == None then None
    else if (x.value > y.value) == max then x else y
  }

  lemma MeaningsOfTwo(name: string, max: bool, x: Expr, y: Expr, env: Env)
    requires WellFormed(Extremum(name, max, [x, y]))
    ensures WellFormed(x) && WellFormed(y)
    ensures Meaning(Extremum(name, max, [x, y]), env) == Larger(max, Meaning(x, env), Meaning(y, env))
  {
    var args := [x, y];
    assert args[0] == x && args[1] == y;
    MeaningsAlone(args, env);
    if Meaning(x, env).Some? && Meaning(y, env).Some? {
      assert Meanings(args, env).value == [Meaning(x, env).value, Meaning(y, env).value];
      ExtremeOfTwo(max, Meaning(x, env).value, Meaning(y, env).value);
    }
  }

  lemma ExtremeOfTwo(max: bool, a: real, b: real)
    ensures Extreme(max, [a, b]) == if (a > b) == max then a else b
  {
    ExtremeMeans(max, [a, b]);
    assert [a, b][0] in [a, b] && [a, b][1] in [a, b];
  }

  /* ---------- ROUND and signs ---------- */

  /** ROUND rounds to the digits of its second argument, whose decimals are cut off; without one to integers. */
  lemma RoundMeans(name: string, x: real, d: real, places: int, env: Env)
    requires Names(name, RoundFn)
    requires if d >= 0.0 then places as real <= d < places as real + 1.0 else places as real - 1.0 < d <= places as real
    ensures Parse(0, [Ident(name), LParen, Num(x), Comma, Num(d), RParen], env, true) == Ok([], RoundHalfUp(x, places))
    ensures Parse(0, [Ident(name), LParen, Num(x), RParen], env, true) == Ok([], RoundHalfUp(x, 0))
  {
    RoundText(name, x, d);
    RoundAlone(name, x, env);
    var e := Round(name, Lit(x), Some(Lit(d)));
    ParsePrinted(e, env);
    RoundOfTwo(name, x, d, env);
    CutOff(d, places);
  }

  lemma RoundOfTwo(name: string, x: real, d: real, env: Env)
    requires WellFormed(Round(name, Lit(x), Some(Lit(d))))
    ensures Meaning(Round(name, Lit(x), Some(Lit(d))), env) == Some(RoundHalfUp(x, Truncate(d)))
  {
    assert Meaning(Lit(x), env) == Some(x) && Meaning(Lit(d), env) == Some(d);
  }

  /** Digits are cut to a whole number, towards zero. */
  lemma CutOff(d: real, n: int)
    ensures Truncate(d) == n <==>
      if d >= 0.0 then n as real <= d < n as real + 1.0 else n as real - 1.0 < d <= n as real
  {
  }

  lemma RoundText(name: string, x: real, d: real)
    requires Names(name, RoundFn)
    ensures WellFormed(Round(name, Lit(x), Some(Lit(d))))
    ensures Print(0, Round(name, Lit(x), Some(Lit(d)))) == [Ident(name), LParen, Num(x), Comma, Num(d), RParen]
  {
    assert WellFormed(Lit(x)) && WellFormed(Lit(d));
    LitText(0, x);
    LitText(0, d);
    assert Plain(Round(name, Lit(x), Some(Lit(d)))) == Call(name) + [Num(x)] + ([Comma] + [Num(d)]) + [RParen];
  }

  lemma RoundAlone(name: string, x: real, env: Env)
    requires Names(name, RoundFn)
    ensures Parse(0, [Ident(name), LParen, Num(x), RParen], env, true) == Ok([], RoundHalfUp(x, 0))
  {
    var e := Round(name, Lit(x), None);
    assert WellFormed(Lit(x));
    ParsePrinted(e, env);
    LitText(0, x);
    assert Print(0, e) == [Ident(name), LParen, Num(x), RParen];
  }

  /** A sign belongs to the operand that follows it. */
  lemma SignsBind(x: real, op: Token, y: real, env: Env)
    requires IsOperator(op)
    ensures Parse(0, [Minus, Num(x), op, Num(y)], env, true) == Result(Apply(op, -x, y))
    ensures Parse(0, [Num(x), op, Minus, Num(y)], env, true) == Result(Apply(op, x, -y))
  {
    SignFirst(x, op, y, env);
    SignSecond(x, op, y, env);
  }

  lemma SignFirst(x: real, op: Token, y: real, env: Env)
    requires IsOperator(op)
    ensures Parse(0, [Minus, Num(x), op, Num(y)], env, true) == Result(Apply(op, -x, y))
  {
    SignText(Closeness(op), x);
    LitText(Closeness(op) + 1, y);
    BinRead(op, Neg(Lit(x)), Lit(y), env);
    assert [Minus, Num(x)] + [op] + [Num(y)] == [Minus, Num(x), op, Num(y)];
  }

  lemma SignSecond(x: real, op: Token, y: real, env: Env)
    requires IsOperator(op)
    ensures Parse(0, [Num(x), op, Minus, Num(y)], env, true) == Result(Apply(op, x, -y))
  {
    LitText(Closeness(op), x);
    SignText(Closeness(op) + 1, y);
    BinRead(op, Lit(x), Neg(Lit(y)), env);
    assert [Num(x)] + [op] + [Minus, Num(y)] == [Num(x), op, Minus, Num(y)];
  }

  /** A plus sign changes nothing. */
  lemma PlusSign(e: Expr, env: Env)
    requires WellFormed(e)
    ensures ReadAlone(Pos(e), env) == ReadAlone(e, env)
  {
    ParsePrinted(Pos(e), env);
    ParsePrinted(e, env);
  }

  lemma SignText(level: nat, x: real)
    requires level <= 3
    ensures Print(level, Neg(Lit(x))) == [Minus, Num(x)]
  {
    LitText(3, x);
  }
}
