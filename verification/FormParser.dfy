/** The parser object of form expressions, which moves `pos` over its tokens
    (asoud_erp/services/form_schema.py:502-646), proved against the grammar of FormExpression. */
module FormParser {
  import opened Basics
  import opened Rounding
  import opened FormExpression

  class ExpressionParser {
    const tokens: seq<Token>
    const values: Env
    var pos: nat

    constructor (tokens: seq<Token>, values: Env)
      ensures this.tokens == tokens && this.values == values && pos == 0
    {
      this.tokens, this.values, pos := tokens, values, 0;
    }

    ghost function Rest(): seq<Token>
      reads this`pos
      requires pos <= |tokens|
    {
      tokens[pos..]
    }

    /** The outcome of a parsing method: its value and the tokens left, or the raised error. */
    ghost predicate Gives(expected: Parsed, error: Option<Error>, value: real)
      reads this`pos
    {
      match expected
      case Ok(rest, v) => error == None && pos <= |tokens| && Rest() == rest && value == v
      case Fail(e) => error == Some(e)
    }

    predicate Peek(t: Token)
      reads this`pos
    {
      pos < |tokens| && tokens[pos] == t
    }

    method Consume(expected: Token) returns (error: Option<Error>)
      requires pos <= |tokens|
      modifies this`pos
      ensures Gives(Expect(expected, old(Rest())), error, 0.0)
      ensures error == None ==> pos == old(pos) + 1
    {
      if !Peek(expected) {
        return Some(Syntax);
      }
      pos := pos + 1;
      return None;
    }

    method ParseExpr(execute: bool) returns (error: Option<Error>, value: real)
      requires pos <= |tokens|
      modifies this`pos
      ensures Gives(Parse(0, old(Rest()), values, execute), error, value)
      ensures error == None ==> pos > old(pos)
      decreases |tokens| - pos, 11
    {
      error, value := ParseLevel(0, execute);
    }

    /** parse_comparison, parse_additive and parse_multiplicative differ in their operators and
        in the method they call for an operand. */
    method ParseLevel(level: nat, execute: bool) returns (error: Option<Error>, value: real)
      requires level <= 2 && pos <= |tokens|
      modifies this`pos
      ensures Gives(Parse(level, old(Rest()), values, execute), error, value)
      ensures error == None ==> pos > old(pos)
      decreases |tokens| - pos, 10 - 2 * level
    {
      error, value := ParseOperand(level, execute);
      if error != None {
        return;
      }
      ghost var whole := Parse(level, old(Rest()), values, execute);
      while pos < |tokens| && IsOp(level, tokens[pos])
        invariant old(pos) < pos <= |tokens| && error == None
        invariant whole == Tail(level, Rest(), value, values, execute)
        decreases |tokens| - pos
      {
        var op := tokens[pos];
        pos := pos + 1;
        var right;
        error, right := ParseOperand(level, execute);
        if error != None {
          return;
        }
        if execute {
          match Apply(op, value, right)
          case None => return Some(Arithmetic), value;
          case Some(result) => value := result;
        }
      }
    }

    method ParseOperand(level: nat, execute: bool) returns (error: Option<Error>, value: real)
      requires level <= 2 && pos <= |tokens|
      modifies this`pos
      ensures Gives(Parse(level + 1, old(Rest()), values, execute), error, value)
      ensures error == None ==> pos > old(pos)
      decreases |tokens| - pos, 9 - 2 * level
    {
      if level == 2 {
        error, value := ParseUnary(execute);
      } else {
        error, value := ParseLevel(level + 1, execute);
      }
    }

    method ParseUnary(execute: bool) returns (error: Option<Error>, value: real)
      requires pos <= |tokens|
      modifies this`pos
      ensures Gives(Unary(old(Rest()), values, execute), error, value)
      ensures error == None ==> pos > old(pos)
      decreases |tokens| - pos, 1
    {
      if Peek(Minus) {
        pos := pos + 1;
        error, value := ParseUnary(execute);
        value := if execute then -value else 0.0;
      } else if Peek(Plus) {
        pos := pos + 1;
        error, value := ParseUnary(execute);
      } else {
        error, value := ParsePrimary(execute);
      }
    }

    method ParsePrimary(execute: bool) returns (error: Option<Error>, value: real)
      requires pos <= |tokens|
      modifies this`pos
      ensures Gives(Primary(old(Rest()), values, execute), error, value)
      ensures error == None ==> pos > old(pos)
      decreases |tokens| - pos, 0
    {
      value := 0.0;
      if pos == |tokens| {
        return Some(Syntax), value;
      }
      var token := tokens[pos];
      pos := pos + 1;
      if token == LParen {
        error, value := ParseExpr(execute);
        if error == None {
          error := Consume(RParen);
        }
      } else if token.Num? {
        error, value := None, token.value;
      } else if Peek(LParen) {
        pos := pos + 1;
        match FunctionOf(token) {
          case IfFn => error, value := ParseIf(execute);
          case RoundFn => error, value := ParseRound(execute);
          case MaxFn => error, value := ParseExtreme(true, execute);
          case MinFn => error, value := ParseExtreme(false, execute);
          case Unknown => error := Some(Syntax);
        }
      } else {
        error := None;
        if execute {
          match Lookup(values, token)
          case None => error := Some(Arithmetic);
          case Some(v) => value := v;
        }
      }
    }

    method ParseIf(execute: bool) returns (error: Option<Error>, value: real)
      requires pos <= |tokens|
      modifies this`pos
      ensures Gives(IfCall(old(Rest()), values, execute), error, value)
      ensures error == None ==> pos > old(pos)
      decreases |tokens| - pos, 12
    {
      value := 0.0;
      var condition, whenTrue, whenFalse;
      error, condition := ParseExpr(execute);
      if error != None { return; }
      var holds := execute && condition != 0.0;
      error := Consume(Comma);
      if error != None { return; }
      error, whenTrue := ParseExpr(execute && holds);
      if error != None { return; }
      error := Consume(Comma);
      if error != None { return; }
      error, whenFalse := ParseExpr(execute && !holds);
      if error != None { return; }
      error := Consume(RParen);
      value := if holds then whenTrue else if execute then whenFalse else 0.0;
    }

    method ParseRound(execute: bool) returns (error: Option<Error>, value: real)
      requires pos <= |tokens|
      modifies this`pos
      ensures Gives(RoundCall(old(Rest()), values, execute), error, value)
      ensures error == None ==> pos > old(pos)
      decreases |tokens| - pos, 12
    {
      value := 0.0;
      var x;
      error, x := ParseExpr(execute);
      if error != None { return; }
      var digits := 0;
      if Peek(Comma) {
        pos := pos + 1;
        var d;
        error, d := ParseExpr(execute);
        if error != None { return; }
        if execute {
          digits := Truncate(d);
        }
      }
      error := Consume(RParen);
      value := if execute then RoundHalfUp(x, digits) else 0.0;
    }

    method ParseExtreme(max: bool, execute: bool) returns (error: Option<Error>, value: real)
      requires pos <= |tokens|
      modifies this`pos
      ensures Gives(ExtremeCall(max, old(Rest()), values, execute), error, value)
      ensures error == None ==> pos > old(pos)
      decreases |tokens| - pos, 12
    {
      value := 0.0;
      var first;
      error, first := ParseExpr(execute);
      if error != None { return; }
      var args := [first];
      ghost var whole := ExtremeCall(max, old(Rest()), values, execute);
      while Peek(Comma)
        invariant old(pos) < pos <= |tokens| && args != []
        invariant whole == MoreArgs(max, Rest(), args, values, execute)
        decreases |tokens| - pos
      {
        pos := pos + 1;
        var next;
        error, next := ParseExpr(execute);
        if error != None { return; }
        args := args + [next];
      }
      error := Consume(RParen);
      value := if execute then Extreme(max, args) else 0.0;
    }
  }
}
