/**
The evaluator as the source runs it: an object with the text, a position that only moves
forward and an error that, once set, stops every level above. Each method is proved to read
exactly what the function of its grammar level says.
*/
module ArithEvaluator {
  import opened Text
  import opened Arith

  class ArithCtx {
    const expr: string
    const env: Env
    var pos: nat
    var error: Option<Error>   // `has_error` together with the message

    constructor (expr: string, env: Env)
      ensures this.expr == expr && this.env == env && pos == 0 && error == None
    {
      this.expr, this.env := expr, env;
      pos, error := 0, None;
    }

    ghost predicate Valid()
      reads this
    {
      pos <= |expr|
    }

    /** The text still to be read. */
    ghost function Rest(): (s: string)
      reads this
      requires Valid()
    {
      expr[pos..]
    }

    /** After a call that returned `v`, the object is in the state that `p` describes. */
    ghost predicate Reached(p: Parse, v: int)
      reads this
    {
      Valid() &&
      match p
      case Ok(x, rest) => error == None && v == x && Rest() == rest
      case Fail(e) => error == Some(e)
    }

    method SkipSpaces()
      requires Valid()
      modifies this`pos
      ensures Valid() && Rest() == SkipWs(old(Rest()))
    {
      while pos < |expr| && IsSpace(expr[pos])
        invariant Valid() && SkipWs(Rest()) == SkipWs(old(Rest()))
        decreases |expr| - pos
      {
        assert Rest()[1..] == expr[pos + 1..];
        pos := pos + 1;
      }
    }

    predicate Peek(i: nat, c: char)
      reads this
      requires Valid()
      ensures Peek(i, c) == At(Rest(), i, c)
    {
      pos + i < |expr| && expr[pos + i] == c
    }

    method Advance(n: nat)
      requires Valid() && n <= |Rest()|
      modifies this`pos
      ensures Valid() && Rest() == old(Rest())[n..]
    {
      pos := pos + n;
    }

    method Raise(e: Error) returns (v: int)
      modifies this`error
      ensures error == Some(e)
    {
      error := Some(e);
      return 0;
    }

    /** `arith_parse_nested_expansion`: the text between `$((` and its `))`. */
    method ParseNested() returns (text: Option<string>)
      requires Valid() && At(Rest(), 0, '$') && At(Rest(), 1, '(') && At(Rest(), 2, '(')
      modifies this
      ensures Valid()
      ensures match NestedEnd(old(Rest()), 3, 1)
              case None => text == None && error == Some(UnterminatedNested)
              case Some(end) =>
                text == Some(Truncated(old(Rest())[3..end])) && Rest() == old(Rest())[end + 2..] && error == old(error)
    {
      ghost var s := Rest();
      var start, cursor, depth := pos + 3, pos + 3, 1;
      ghost var at := 3;
      while cursor < |expr|
        invariant start == old(pos) + 3 <= cursor <= |expr| && depth > 0
        invariant pos == old(pos) && error == old(error)
        invariant at == cursor - pos && NestedEnd(s, 3, 1) == NestedEnd(s, at, depth)
        decreases |expr| - cursor
      {
        SameAhead(expr, pos, cursor, at);
        if At(expr, cursor, '$') && At(expr, cursor + 1, '(') && At(expr, cursor + 2, '(') {
          depth := depth + 1;
          cursor, at := cursor + 3, at + 3;
          continue;
        }
        if At(expr, cursor, ')') && At(expr, cursor + 1, ')') {
          if depth == 1 {
            SliceOfRest(expr, pos, 3, at);
            text := Some(Truncated(expr[start..cursor]));
            pos := cursor + 2;
            return;
          }
          depth := depth - 1;
          cursor, at := cursor + 2, at + 2;
          continue;
        }
        cursor, at := cursor + 1, at + 1;
      }
      error := Some(UnterminatedNested);
      text := None;
    }

    /** The name scan of `arith_primary`. */
    method ScanName() returns (name: string)
      requires Valid()
      modifies this`pos
      ensures Valid()
      ensures var n := NameLength(old(Rest())); name == old(Rest())[..n] && Rest() == old(Rest())[n..]
    {
      ghost var s := Rest();
      var start := pos;
      while pos < |expr| && IsNameChar(expr[pos])
        invariant start <= pos <= |expr|
        invariant NameLength(s) == pos - start + NameLength(expr[pos..])
        decreases |expr| - pos
      {
        assert expr[pos..][1..] == expr[pos + 1..];
        pos := pos + 1;
      }
      name := expr[start..pos];
    }

    method ArithPrimary() returns (v: int)
      requires Valid() && error == None
      modifies this
      ensures Reached(Primary(old(Rest()), env), v)
      decreases |expr| - pos, 2
    {
      SkipSpaces();
      if pos == |expr| { v := Raise(UnexpectedEnd); return; }
      if expr[pos] == '(' {
        Advance(1);
        v := ArithExpr();
        if error != None { return 0; }
        SkipSpaces();
        if Peek(0, ')') { Advance(1); } else { v := Raise(MissingParen); }
        return;
      }
      if Peek(0, '$') && Peek(1, '(') && Peek(2, '(') {
        var nested := ParseNested();
        if nested == None { return 0; }
        var r := EvaluateArith(nested.value, env);
        match r {
          case Val(x) => return x;
          case Err(e) => v := Raise(e); return;
        }
      }
      if expr[pos] == '$' || IsAlpha(expr[pos]) || expr[pos] == '_' {
        if expr[pos] == '$' { Advance(1); }
        var name := ScanName();
        return VarValue(env, name);
      }
      if IsDigit(expr[pos]) {
        var (n, rest) := Unsigned(expr[pos..]);
        UnsignedIsSuffix(expr[pos..]);
        Advance(|expr| - pos - |rest|);
        return Clamp(n);
      }
      v := Raise(UnexpectedChar);
    }

    method ArithUnary() returns (v: int)
      requires Valid() && error == None
      modifies this
      ensures Reached(UnaryLevel(old(Rest()), env), v)
      decreases |expr| - pos, 4
    {
      SkipSpaces();
      var op := MatchUnary(expr[pos..]);
      if op == None { v := ArithPrimary(); return; }
      Advance(1);
      v := ArithUnary();
      if error != None { return; }
      match ApplyUnary(op.value, v) {
        case Val(x) => v := x;
        case Err(e) => v := Raise(e);
      }
    }

    /** `arith_pow_int` */
    method PowInt(base: int, exponent: int) returns (r: Outcome)
      ensures r == ApplyBinary(Pow, base, exponent)
    {
      if exponent < 0 { return Err(NegativeExponent); }
      var result, i := 1, 0;
      while i < exponent
        invariant 0 <= i <= exponent && result == Power(base, i)
      {
        result := result * base;
        i := i + 1;
      }
      return Fit(result);
    }

    method ArithPower() returns (v: int)
      requires Valid() && error == None
      modifies this
      ensures Reached(PowerLevel(old(Rest()), env), v)
      decreases |expr| - pos, 6
    {
      v := ArithUnary();
      if error != None { return; }
      SkipSpaces();
      if MatchOp(11, expr[pos..]) == None { return; }
      Advance(2);
      var right := ArithPower();
      if error != None { return; }
      var r := PowInt(v, right);
      match r {
        case Val(x) => v := x;
        case Err(e) => v := Raise(e);
      }
    }

    /** `arith_logical_or` (1) down to `arith_multiplicative` (10), and the levels below them. */
    method ArithLevel(level: nat) returns (v: int)
      requires Valid() && error == None && 1 <= level <= 11
      modifies this
      ensures Reached(Level(level, old(Rest()), env), v)
      decreases |expr| - pos, 2 * (14 - level) + 1
    {
      if level == 11 { v := ArithPower(); return; }
      ghost var all := Level(level, Rest(), env);
      v := ArithLevel(level + 1);
      if error != None { return; }
      var more := true;
      while more
        invariant more ==> Valid() && error == None && pos >= old(pos) && all == Chain(level, v, Rest(), env)
        invariant !more ==> Reached(all, v)
        decreases more, |expr| - pos
      {
        more, v := OneOperator(level, v);
      }
    }

    /** One round of the loop of a binary level: an operator of that level and its right operand. */
    method OneOperator(level: nat, left: int) returns (more: bool, v: int)
      requires Valid() && error == None && 1 <= level <= 10
      modifies this
      ensures !more ==> Reached(Chain(level, left, old(Rest()), env), v)
      ensures more ==> Valid() && error == None && pos > old(pos)
      ensures more ==> Chain(level, left, old(Rest()), env) == Chain(level, v, Rest(), env)
      decreases |expr| - pos, 2 * (14 - level)
    {
      ghost var s := Rest();
      SkipSpaces();
      var op := MatchOp(level, expr[pos..]);
      if op == None {
        ChainStops(level, left, s, env);
        return false, left;
      }
      Advance(|OpText(op.value)|);
      ChainGoesOn(level, left, s, op.value, Level(level + 1, Rest(), env), env);
      var right := ArithLevel(level + 1);
      if error != None { return false, right; }
      var r := ApplyBinary(op.value, left, right);
      if r.Err? {
        v := Raise(r.e);
        return false, v;
      }
      return true, r.v;
    }

    /** `arith_expr`, which is `arith_ternary`. */
    method ArithExpr() returns (v: int)
      requires Valid() && error == None
      modifies this
      ensures Reached(Level(0, old(Rest()), env), v)
      decreases |expr| - pos, 28
    {
      assert Level(0, Rest(), env) == Ternary(Rest(), env);
      var cond := ArithLevel(1);
      if error != None { return 0; }
      SkipSpaces();
      v := ArithBranches(cond);
    }

    /** What follows the condition in `arith_ternary`. */
    method ArithBranches(cond: int) returns (v: int)
      requires Valid() && error == None
      modifies this
      ensures Reached(Branches(cond, old(Rest()), env), v)
      decreases |expr| - pos, 0
    {
      if !Peek(0, '?') { return cond; }
      Advance(1);
      var yes := ArithLevel(1);
      if error != None { return 0; }
      SkipSpaces();
      if !Peek(0, ':') { v := Raise(MissingColon); return; }
      Advance(1);
      var no := ArithLevel(1);
      if error != None { return 0; }
      return if cond != 0 then yes else no;
    }
  }

  /** One round of the loop, spelled out. */
  lemma ChainStops(level: nat, left: int, s: string, env: Env)
    requires 1 <= level <= 10 && MatchOp(level, SkipWs(s)) == None
    ensures Chain(level, left, s, env) == Ok(left, SkipWs(s))
  {
  }

  /** What is ahead of the cursor in the whole text and in its rest. */
  lemma SameAhead(s: string, pos: nat, cursor: nat, at: nat)
    requires pos <= |s| && cursor == pos + at
    ensures At(s[pos..], at, '$') == At(s, cursor, '$') && At(s[pos..], at, ')') == At(s, cursor, ')')
    ensures At(s[pos..], at + 1, '(') == At(s, cursor + 1, '(') && At(s[pos..], at + 1, ')') == At(s, cursor + 1, ')')
    ensures At(s[pos..], at + 2, '(') == At(s, cursor + 2, '(')
  {
  }

  lemma SliceOfRest(s: string, pos: nat, a: nat, b: nat)
    requires a <= b && pos + b <= |s|
    ensures s[pos..][a..b] == s[pos + a..pos + b]
  {
  }

  lemma ChainGoesOn(level: nat, left: int, s: string, op: BinaryOp, right: Parse, env: Env)
    requires 1 <= level <= 10 && MatchOp(level, SkipWs(s)) == Some(op)
    requires right == Level(level + 1, SkipWs(s)[|OpText(op)|..], env)
    ensures right.Fail? ==> Chain(level, left, s, env) == right
    ensures right.Ok? && ApplyBinary(op, left, right.v).Err? ==>
      Chain(level, left, s, env) == Fail(ApplyBinary(op, left, right.v).e)
    ensures right.Ok? && ApplyBinary(op, left, right.v).Val? ==>
      Chain(level, left, s, env) == Chain(level, ApplyBinary(op, left, right.v).v, right.rest, env)
  {
  }

  /** `evaluate_arith` */
  method EvaluateArith(expr: string, env: Env) returns (r: Outcome)
    ensures r == Evaluate(expr, env)
    decreases |expr|, 40
  {
    var ctx := new ArithCtx(expr, env);
    assert ctx.Rest() == expr;
    var v := ctx.ArithExpr();
    if ctx.error != None { return Err(ctx.error.value); }
    ctx.SkipSpaces();
    return if ctx.pos < |expr| then Err(TrailingInput) else Val(v);
  }

  lemma {:induction false} DigitsIsSuffix(base: nat, s: string, acc: nat)
    ensures var rest := Digits(base, s, acc).1; rest == s[|s| - |rest|..]
    decreases |s|
  {
    if s != "" && IsDigitIn(base, s[0]) {
      var acc' := acc * base + HexValue(s[0]);
      DigitsIsSuffix(base, s[1..], acc');
      var rest := Digits(base, s[1..], acc').1;
      assert s[1..][|s| - 1 - |rest|..] == s[|s| - |rest|..];
    }
  }

  lemma UnsignedIsSuffix(s: string)
    ensures var rest := Unsigned(s).1; rest == s[|s| - |rest|..]
  {
    DigitsIsSuffix(8, s, 0);
    DigitsIsSuffix(10, s, 0);
    if |s| > 2 {
      DigitsIsSuffix(16, s[2..], 0);
      var rest := Digits(16, s[2..], 0).1;
      assert s[2..][|s| - 2 - |rest|..] == s[|s| - |rest|..];
    }
  }
}
