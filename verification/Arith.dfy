/**
The arithmetic evaluator of `$((...))`: what each grammar level reads from the text in front
of it. The evaluator object is in `ArithEvaluator`, its laws in `ArithLaws` and `ArithRange`.

Numbers are 64-bit. Where an operation has no 64-bit result C leaves the behaviour open;
the model then stops with `OutOfRange`.
*/
module Arith {
  import opened Text
  import Bits

  const INT_MIN := -0x8000_0000_0000_0000
  const INT_MAX := 0x7FFF_FFFF_FFFF_FFFF

  datatype Error =
    | UnexpectedEnd | UnexpectedChar | MissingParen | MissingColon | UnterminatedNested | TrailingInput
    | DivisionByZero | ModuloByZero | NegativeExponent
    | OutOfRange

  datatype Outcome = Val(v: int) | Err(e: Error) {
    predicate IsFailure() { Err? }
    function PropagateFailure(): Outcome requires Err? { this }
    function Extract(): int requires Val? { v }
  }

  // ---------------------------------------------------------------- operators

  datatype UnaryOp = Minus | Plus | LogNot | BitNot

  datatype BinaryOp =
    | LogOr | LogAnd | BitOr | BitXor | BitAnd | Eq | Ne | Lt | Le | Gt | Ge
    | Shl | Shr | Add | Sub | Mul | Div | Mod | Pow

  function Bool(b: bool): (r: int) { if b then 1 else 0 }

  function Fit(v: int): (r: Outcome) {
    if INT_MIN <= v <= INT_MAX then Val(v) else Err(OutOfRange)
  }

  /** C division: the quotient is rounded toward zero. */
  function Quotient(a: int, b: int): (q: int)
    requires b != 0
  {
    if a >= 0 then (if b > 0 then a / b else -(a / -b))
    else (if b > 0 then -(-a / b) else -a / -b)
  }

  function Power(base: int, exponent: nat): (r: int) {
    if exponent == 0 then 1 else Power(base, exponent - 1) * base
  }

  function ApplyUnary(op: UnaryOp, v: int): (r: Outcome) {
    match op
    case Minus => Fit(-v)
    case Plus => Val(v)
    case LogNot => Val(Bool(v == 0))
    case BitNot => Val(Bits.Not(v))
  }

  function ApplyBinary(op: BinaryOp, a: int, b: int): (r: Outcome) {
    match op
    case LogOr => Val(Bool(a != 0 || b != 0))
    case LogAnd => Val(Bool(a != 0 && b != 0))
    case BitOr => Fit(Bits.Or(a, b))
    case BitXor => Fit(Bits.Xor(a, b))
    case BitAnd => Fit(Bits.And(a, b))
    case Eq => Val(Bool(a == b))
    case Ne => Val(Bool(a != b))
    case Lt => Val(Bool(a < b))
    case Le => Val(Bool(a <= b))
    case Gt => Val(Bool(a > b))
    case Ge => Val(Bool(a >= b))
    case Shl => if a < 0 || !(0 <= b < 64) then Err(OutOfRange) else Fit(a * Bits.Pow2(b))
    case Shr => if !(0 <= b < 64) then Err(OutOfRange) else Fit(a / Bits.Pow2(b))
    case Add => Fit(a + b)
    case Sub => Fit(a - b)
    case Mul => Fit(a * b)
    case Div => if b == 0 then Err(DivisionByZero) else Fit(Quotient(a, b))
    case Mod =>
      if b == 0 then Err(ModuloByZero)
      else if Fit(Quotient(a, b)).Err? then Err(OutOfRange) else Fit(a - Quotient(a, b) * b)
    case Pow => if b < 0 then Err(NegativeExponent) else Fit(Power(a, b))
  }

  /** Grammar level of an operator; a larger level binds tighter. */
  function OpLevel(op: BinaryOp): (level: nat)
    ensures 1 <= level <= 11
  {
    match op
    case LogOr => 1
    case LogAnd => 2
    case BitOr => 3
    case BitXor => 4
    case BitAnd => 5
    case Eq | Ne => 6
    case Lt | Le | Gt | Ge => 7
    case Shl | Shr => 8
    case Add | Sub => 9
    case Mul | Div | Mod => 10
    case Pow => 11
  }

  function OpText(op: BinaryOp): (s: string)
    ensures 1 <= |s| <= 2
  {
    match op
    case LogOr => "||" case LogAnd => "&&" case BitOr => "|" case BitXor => "^" case BitAnd => "&"
    case Eq => "==" case Ne => "!=" case Lt => "<" case Le => "<=" case Gt => ">" case Ge => ">="
    case Shl => "<<" case Shr => ">>" case Add => "+" case Sub => "-"
    case Mul => "*" case Div => "/" case Mod => "%" case Pow => "**"
  }

  predicate At(s: string, i: nat, c: char) { i < |s| && s[i] == c }

  /** The operator that the loop of `level` sees at the head of `s`, if any. */
  function MatchOp(level: nat, s: string): (op: Option<BinaryOp>)
    ensures op.Some? ==> OpLevel(op.value) == level && |OpText(op.value)| <= |s|
  {
    if level == 1 then (if At(s, 0, '|') && At(s, 1, '|') then Some(LogOr) else None)
    else if level == 2 then (if At(s, 0, '&') && At(s, 1, '&') then Some(LogAnd) else None)
    else if level == 3 then (if At(s, 0, '|') && !At(s, 1, '|') then Some(BitOr) else None)
    else if level == 4 then (if At(s, 0, '^') then Some(BitXor) else None)
    else if level == 5 then (if At(s, 0, '&') && !At(s, 1, '&') then Some(BitAnd) else None)
    else if level == 6 then
      (if At(s, 0, '=') && At(s, 1, '=') then Some(Eq) else if At(s, 0, '!') && At(s, 1, '=') then Some(Ne) else None)
    else if level == 7 then
      (if At(s, 0, '<') && At(s, 1, '=') then Some(Le)
       else if At(s, 0, '>') && At(s, 1, '=') then Some(Ge)
       else if At(s, 0, '<') && !At(s, 1, '<') then Some(Lt)
       else if At(s, 0, '>') && !At(s, 1, '>') then Some(Gt) else None)
    else if level == 8 then
      (if At(s, 0, '<') && At(s, 1, '<') then Some(Shl) else if At(s, 0, '>') && At(s, 1, '>') then Some(Shr) else None)
    else if level == 9 then (if At(s, 0, '+') then Some(Add) else if At(s, 0, '-') then Some(Sub) else None)
    else if level == 10 then
      (if At(s, 0, '*') then Some(Mul)
       else if At(s, 0, '/') then Some(Div)
       else if At(s, 0, '%') then Some(Mod) else None)
    else if level == 11 then (if At(s, 0, '*') && At(s, 1, '*') then Some(Pow) else None)
    else None
  }

  function MatchUnary(s: string): (op: Option<UnaryOp>)
    ensures op.Some? ==> s != ""
  {
    if At(s, 0, '-') then Some(Minus) else if At(s, 0, '+') then Some(Plus)
    else if At(s, 0, '!') then Some(LogNot) else if At(s, 0, '~') then Some(BitNot) else None
  }

  // ---------------------------------------------------------------- words of the text

  function SkipWs(s: string): (r: string)
    ensures |r| <= |s| && (r != "" ==> !IsSpace(r[0]))
  {
    if s != "" && IsSpace(s[0]) then SkipWs(s[1..]) else s
  }

  function NameLength(s: string): (n: nat)
    ensures n <= |s|
  {
    if s != "" && IsNameChar(s[0]) then 1 + NameLength(s[1..]) else 0
  }

  predicate IsDigitIn(base: nat, c: char) { 0 <= HexValue(c) < base }

  /** Reads digits of `base`: the number they denote after `acc`, and the text behind them. */
  function Digits(base: nat, s: string, acc: nat): (r: (nat, string))
    ensures |r.1| <= |s|
    decreases |s|
  {
    if s != "" && IsDigitIn(base, s[0]) then Digits(base, s[1..], acc * base + HexValue(s[0])) else (acc, s)
  }

  /** The unsigned part of `strtoll` with base 0: `0x` hexadecimal, leading `0` octal, else decimal. */
  function Unsigned(s: string): (r: (nat, string))
    ensures |r.1| <= |s|
    ensures s != "" && IsDigit(s[0]) ==> |r.1| < |s|
  {
    if At(s, 0, '0') && (At(s, 1, 'x') || At(s, 1, 'X')) && |s| > 2 && IsDigitIn(16, s[2]) then Digits(16, s[2..], 0)
    else if At(s, 0, '0') then Digits(8, s, 0)
    else Digits(10, s, 0)
  }

  function Clamp(v: int): (r: int)
    ensures INT_MIN <= r <= INT_MAX
  {
    if v < INT_MIN then INT_MIN else if v > INT_MAX then INT_MAX else v
  }

  /** Value of a variable's text: a numeral that fills it up to white space, or else 0. */
  function TextValue(text: string): (v: int)
    ensures INT_MIN <= v <= INT_MAX
  {
    var s := SkipWs(text);
    var negative := At(s, 0, '-');
    var body := if negative || At(s, 0, '+') then s[1..] else s;
    if body == "" || !IsDigit(body[0]) then 0
    else
      var (n, rest) := Unsigned(body);
      if SkipWs(rest) == "" then Clamp(if negative then 0 - n else n) else 0
  }

  type Env = map<string, string>

  function VarValue(env: Env, name: string): (v: int)
    ensures INT_MIN <= v <= INT_MAX
  {
    var key := if |name| < MAX_NAME then name else name[..MAX_NAME - 1];
    if key == "" || key !in env then 0 else TextValue(env[key])
  }

  /** Where the nested `$((` whose text starts at `cursor` closes. */
  function NestedEnd(s: string, cursor: nat, depth: nat): (r: Option<nat>)
    requires cursor <= |s| && depth > 0
    ensures r.Some? ==> cursor <= r.value && r.value + 2 <= |s|
    decreases |s| - cursor
  {
    if cursor == |s| then None
    else if At(s, cursor, '$') && At(s, cursor + 1, '(') && At(s, cursor + 2, '(') then
      NestedEnd(s, cursor + 3, depth + 1)
    else if At(s, cursor, ')') && At(s, cursor + 1, ')') then
      if depth == 1 then Some(cursor) else NestedEnd(s, cursor + 2, depth - 1)
    else NestedEnd(s, cursor + 1, depth)
  }

  function Truncated(s: string): (r: string)
    ensures |r| <= |s|
  {
    if |s| < MAX_OUTPUT then s else s[..MAX_OUTPUT - 1]
  }

  // ---------------------------------------------------------------- what each level reads

  datatype Parse = Ok(v: int, rest: string) | Fail(e: Error) {
    predicate IsFailure() { Fail? }
    function PropagateFailure(): Parse requires Fail? { this }
    function Extract(): (int, string) requires Ok? { (v, rest) }
  }

  function Yield(r: Outcome, rest: string): (p: Parse) {
    match r case Val(v) => Ok(v, rest) case Err(e) => Fail(e)
  }

  /** Level 0 is the conditional, 1 to 10 the left-associative operators, 11 `**`, 12 unary, 13 primary. */
  function Level(level: nat, s: string, env: Env): (p: Parse)
    requires level <= 13
    ensures p.Ok? ==> |p.rest| <= |s|
    decreases |s|, 2 * (14 - level) + 1
  {
    if level == 0 then Ternary(s, env)
    else if level <= 10 then var (v, rest) :- Level(level + 1, s, env); Chain(level, v, rest, env)
    else if level == 11 then PowerLevel(s, env)
    else if level == 12 then UnaryLevel(s, env)
    else Primary(s, env)
  }

  /** The loop of a left-associative level: operands of the next level, combined as they come. */
  function Chain(level: nat, left: int, s: string, env: Env): (p: Parse)
    requires 1 <= level <= 10
    ensures p.Ok? ==> |p.rest| <= |s|
    decreases |s|, 2 * (14 - level)
  {
    var t := SkipWs(s);
    match MatchOp(level, t)
    case None => Ok(left, t)
    case Some(op) =>
      var (right, rest) :- Level(level + 1, t[|OpText(op)|..], env);
      match ApplyBinary(op, left, right)
      case Err(e) => Fail(e)
      case Val(v) => Chain(level, v, rest, env)
  }

  function Ternary(s: string, env: Env): (p: Parse)
    ensures p.Ok? ==> |p.rest| <= |s|
    decreases |s|, 28
  {
    var (c, rest) :- Level(1, s, env);
    Branches(c, SkipWs(rest), env)
  }

  /** What follows the condition; all three operands are logical-or expressions. */
  function Branches(c: int, t: string, env: Env): (p: Parse)
    ensures p.Ok? ==> |p.rest| <= |t|
    decreases |t|, 0
  {
    if !At(t, 0, '?') then Ok(c, t) else
      var (yes, rest) :- Level(1, t[1..], env);
      var u := SkipWs(rest);
      if !At(u, 0, ':') then Fail(MissingColon) else
        var (no, rest') :- Level(1, u[1..], env);
        Ok(if c != 0 then yes else no, rest')
  }

  function PowerLevel(s: string, env: Env): (p: Parse)
    ensures p.Ok? ==> |p.rest| <= |s|
    decreases |s|, 6
  {
    var (left, rest) :- UnaryLevel(s, env);
    var t := SkipWs(rest);
    match MatchOp(11, t)
    case None => Ok(left, t)
    case Some(_) =>
      var (right, rest') :- PowerLevel(t[2..], env);
      Yield(ApplyBinary(Pow, left, right), rest')
  }

  function UnaryLevel(s: string, env: Env): (p: Parse)
    ensures p.Ok? ==> |p.rest| <= |s|
    decreases |s|, 4
  {
    var t := SkipWs(s);
    match MatchUnary(t)
    case None => Primary(t, env)
    case Some(op) =>
      var (v, rest) :- UnaryLevel(t[1..], env);
      Yield(ApplyUnary(op, v), rest)
  }

  function Primary(s: string, env: Env): (p: Parse)
    ensures p.Ok? ==> |p.rest| <= |s|
    decreases |s|, 2
  {
    var t := SkipWs(s);
    if t == "" then Fail(UnexpectedEnd)
    else if t[0] == '(' then
      var (v, rest) :- Level(0, t[1..], env);
      var u := SkipWs(rest);
      if At(u, 0, ')') then Ok(v, u[1..]) else Fail(MissingParen)
    else if At(t, 0, '$') && At(t, 1, '(') && At(t, 2, '(') then
      match NestedEnd(t, 3, 1)
      case None => Fail(UnterminatedNested)
      case Some(end) => Yield(Evaluate(Truncated(t[3..end]), env), t[end + 2..])
    else if t[0] == '$' || IsAlpha(t[0]) || t[0] == '_' then
      var u := if t[0] == '$' then t[1..] else t;
      var n := NameLength(u);
      Ok(VarValue(env, u[..n]), u[n..])
    else if IsDigit(t[0]) then
      var (n, rest) := Unsigned(t);
      Ok(Clamp(n), rest)
    else Fail(UnexpectedChar)
  }

  /** `evaluate_arith`: the whole text must be one expression. */
  function Evaluate(s: string, env: Env): (r: Outcome)
    decreases |s|, 40
  {
    match Level(0, s, env)
    case Fail(e) => Err(e)
    case Ok(v, rest) => if SkipWs(rest) == "" then Val(v) else Err(TrailingInput)
  }
}
