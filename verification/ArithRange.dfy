/** Arithmetic stays within 64 bits: a value that is returned fits, and bitwise operators never fail. */
module ArithRange {
  import opened Text
  import opened Arith
  import Bits

  predicate InRange(v: int) { INT_MIN <= v <= INT_MAX }

  lemma RangeIsWidth(v: int)
    ensures InRange(v) <==> Bits.Fits(v, 63)
  {
    Bits.Pow2Of63();
  }

  /** Of 64-bit operands, `&`, `|`, `^` and a shift to the right by less than 64 always have a value. */
  lemma BitwiseNeverFails(op: BinaryOp, a: int, b: int)
    requires InRange(a) && InRange(b) && (op == BitAnd || op == BitOr || op == BitXor || (op == Shr && 0 <= b < 64))
    ensures ApplyBinary(op, a, b).Val?
  {
    if op == Shr {
      ShiftShrinks(a, Bits.Pow2(b));
    } else {
      RangeIsWidth(a);
      RangeIsWidth(b);
      Bits.BitwiseFits(a, b, 63);
      RangeIsWidth(Bits.And(a, b));
      RangeIsWidth(Bits.Or(a, b));
      RangeIsWidth(Bits.Xor(a, b));
    }
  }

  lemma Times(x: int, d: int)
    requires x >= 0 && d >= 1
    ensures x * d >= x
  {
    assert x * d == x * (d - 1) + x;
    assert x * (d - 1) >= 0;
  }

  lemma ShiftShrinks(a: int, d: nat)
    requires d > 0
    ensures if a >= 0 then 0 <= a / d <= a else a <= a / d < 0
  {
    var q, r := a / d, a % d;
    assert a == q * d + r && 0 <= r < d;
    if q >= 0 {
      Times(q, d);
    } else {
      Times(-q - 1, d);
      assert (-q - 1) * d == 0 - q * d - d;
    }
  }

  lemma AppliedInRange(op: BinaryOp, a: int, b: int)
    ensures ApplyBinary(op, a, b).Val? ==> InRange(ApplyBinary(op, a, b).v)
  {
  }

  predicate Sound(p: Parse) { p.Ok? ==> InRange(p.v) }

  lemma {:induction false} LevelInRange(level: nat, s: string, env: Env)
    requires level <= 13
    ensures Sound(Level(level, s, env))
    decreases |s|, 2 * (14 - level) + 1
  {
    if level == 0 {
      TernaryInRange(s, env);
    } else if level <= 10 {
      LevelInRange(level + 1, s, env);
      var p := Level(level + 1, s, env);
      if p.Ok? { ChainInRange(level, p.v, p.rest, env); }
    } else if level == 11 {
      PowerInRange(s, env);
    } else if level == 12 {
      UnaryInRange(s, env);
    } else {
      PrimaryInRange(s, env);
    }
  }

  lemma {:induction false} ChainInRange(level: nat, left: int, s: string, env: Env)
    requires 1 <= level <= 10 && InRange(left)
    ensures Sound(Chain(level, left, s, env))
    decreases |s|, 2 * (14 - level)
  {
    var t := SkipWs(s);
    var op := MatchOp(level, t);
    if op.Some? {
      var p := Level(level + 1, t[|OpText(op.value)|..], env);
      if p.Ok? {
        AppliedInRange(op.value, left, p.v);
        var r := ApplyBinary(op.value, left, p.v);
        if r.Val? { ChainInRange(level, r.v, p.rest, env); }
      }
    }
  }

  lemma {:induction false} TernaryInRange(s: string, env: Env)
    ensures Sound(Ternary(s, env))
    decreases |s|, 28
  {
    LevelInRange(1, s, env);
    var c := Level(1, s, env);
    if c.Ok? { BranchesInRange(c.v, SkipWs(c.rest), env); }
  }

  lemma {:induction false} BranchesInRange(c: int, t: string, env: Env)
    requires InRange(c)
    ensures Sound(Branches(c, t, env))
    decreases |t|, 0
  {
    if At(t, 0, '?') {
      LevelInRange(1, t[1..], env);
      var yes := Level(1, t[1..], env);
      if yes.Ok? && At(SkipWs(yes.rest), 0, ':') { LevelInRange(1, SkipWs(yes.rest)[1..], env); }
    }
  }

  lemma {:induction false} PowerInRange(s: string, env: Env)
    ensures Sound(PowerLevel(s, env))
    decreases |s|, 6
  {
    UnaryInRange(s, env);
    var p := UnaryLevel(s, env);
    if p.Ok? && MatchOp(11, SkipWs(p.rest)).Some? {
      var right := PowerLevel(SkipWs(p.rest)[2..], env);
      if right.Ok? { AppliedInRange(Pow, p.v, right.v); }
    }
  }

  lemma {:induction false} UnaryInRange(s: string, env: Env)
    ensures Sound(UnaryLevel(s, env))
    decreases |s|, 4
  {
    var t := SkipWs(s);
    if MatchUnary(t).Some? {
      UnaryInRange(t[1..], env);
    } else {
      PrimaryInRange(t, env);
    }
  }

  lemma {:induction false} PrimaryInRange(s: string, env: Env)
    ensures Sound(Primary(s, env))
    decreases |s|, 2
  {
    var t := SkipWs(s);
    if t != "" && t[0] == '(' {
      LevelInRange(0, t[1..], env);
    } else if At(t, 0, '$') && At(t, 1, '(') && At(t, 2, '(') {
      var end := NestedEnd(t, 3, 1);
      if end.Some? { EvaluateInRange(Truncated(t[3..end.value]), env); }
    }
  }

  /** A value that evaluation returns fits 64 bits. */
  lemma {:induction false} EvaluateInRange(s: string, env: Env)
    ensures Evaluate(s, env).Val? ==> InRange(Evaluate(s, env).v)
    decreases |s|, 40
  {
    LevelInRange(0, s, env);
  }
}
