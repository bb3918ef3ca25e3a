/**
Written arithmetic expressions and what they mean: evaluating any correctly written text
gives the value of the tree it writes, or the first error in that tree from left to right.
*/
module ArithLaws {
  import opened Text
  import opened Arith
  import Writer = ArithEvaluator
  import M = ArithMeaning
  import N = ArithNumerals
  import Numerals

  // ---------------------------------------------------------------- trees

  datatype Tree =
    | Num(n: nat)
    | Ref(name: string)
    | Un(uop: UnaryOp, arg: Tree)
    | Bin(bop: BinaryOp, left: Tree, right: Tree)
    | If(cond: Tree, yes: Tree, no: Tree)

  /** The value of a variable, whatever the length of its name. */
  function LookUp(env: Env, name: string): (v: int) {
    if name == "" || name !in env then 0 else TextValue(env[name])
  }

  function CutName(name: string): string { if |name| <= 127 then name else name[..127] }

  function CutNames(t: Tree): (r: Tree) {
    match t
    case Num(_) => t
    case Ref(name) => Ref(CutName(name))
    case Un(op, a) => Un(op, CutNames(a))
    case Bin(op, a, b) => Bin(op, CutNames(a), CutNames(b))
    case If(c, a, b) => If(CutNames(c), CutNames(a), CutNames(b))
  }

  predicate NamesFit(t: Tree) {
    match t
    case Num(_) => true
    case Ref(name) => |name| <= 127
    case Un(_, a) => NamesFit(a)
    case Bin(_, a, b) => NamesFit(a) && NamesFit(b)
    case If(c, a, b) => NamesFit(c) && NamesFit(a) && NamesFit(b)
  }

  lemma {:induction false} CutNamesFit(t: Tree)
    ensures CutNames(t) == t <==> NamesFit(t)
  {
    match t
    case Num(_) =>
    case Ref(_) =>
    case Un(_, a) => CutNamesFit(a);
    case Bin(_, a, b) => CutNamesFit(a); CutNamesFit(b);
    case If(c, a, b) => CutNamesFit(c); CutNamesFit(a); CutNamesFit(b);
  }

  /** A variable is read under its own name, whatever there is, exactly when the name fits the buffer. */
  lemma NameIsReadIff(name: string)
    requires name != ""
    ensures (forall env: Env :: VarValue(env, name) == LookUp(env, name)) <==> |name| <= 127
  {
    if |name| > 127 {
      var env: Env := map[name := "1"];
      OneIsOne();
      assert VarValue(env, name) == 0 && LookUp(env, name) == 1;
    }
  }

  lemma OneIsOne()
    ensures TextValue("1") == 1
  {
    assert "1"[1..] == "";
    assert Digits(10, "1", 0) == Digits(10, "", 1);
    assert SkipWs("1") == "1" && SkipWs("") == "";
  }

  /** What a variable is worth: the numeral in its text. */
  ghost predicate Holds(env: Env, name: string, v: int) {
    if name != "" && name in env then N.Worth(env[name], v) else v == 0
  }

  /**
  What an expression means: the operators of C on the values of all operands, of which the
  first error from the left wins, also one in a branch not taken.
  */
  ghost predicate Means(t: Tree, env: Env, r: Outcome) {
    match t
    case Num(n) => r == Val(N.Saturated(n))
    case Ref(name) => r.Val? && Holds(env, name, r.v)
    case Un(op, a) => exists x :: Means(a, env, x) && UnaryOf(op, x, r)
    case Bin(op, a, b) => exists x, y :: Means(a, env, x) && Means(b, env, y) && BinaryOf(op, x, y, r)
    case If(c, a, b) =>
      exists x, y, z :: Means(c, env, x) && Means(a, env, y) && Means(b, env, z) && r == ChoiceOf(x, y, z)
  }

  ghost predicate UnaryOf(op: UnaryOp, x: Outcome, r: Outcome) {
    if x.Err? then r == x else M.GivesUnary(op, x.v, r)
  }

  ghost predicate BinaryOf(op: BinaryOp, x: Outcome, y: Outcome, r: Outcome) {
    if x.Err? then r == x else if y.Err? then r == y else M.Gives(op, x.v, y.v, r)
  }

  function ChoiceOf(x: Outcome, y: Outcome, z: Outcome): (r: Outcome) {
    if x.Err? then x else if y.Err? then y else if z.Err? then z else if x.v != 0 then y else z
  }

  /** The meaning computed: the strict value, operands from left to right. */
  function Meaning(t: Tree, env: Env): (r: Outcome) {
    match t
    case Num(n) => Val(Clamp(n))
    case Ref(name) => Val(LookUp(env, name))
    case Un(op, a) => var v :- Meaning(a, env); ApplyUnary(op, v)
    case Bin(op, a, b) => var x :- Meaning(a, env); var y :- Meaning(b, env); ApplyBinary(op, x, y)
    case If(c, a, b) =>
      var x :- Meaning(c, env); var y :- Meaning(a, env); var z :- Meaning(b, env);
      Val(if x != 0 then y else z)
  }

  predicate IsName(s: string) {
    s != "" && !IsDigit(s[0]) && forall i :: 0 <= i < |s| ==> IsNameChar(s[i])
  }

  predicate AllNameChars(s: string) { forall i :: 0 <= i < |s| ==> IsNameChar(s[i]) }

  /** The computed meaning, and no other, is a meaning. */
  ghost predicate Only(t: Tree, env: Env, x: Outcome) { Means(t, env, x) && forall r :: Means(t, env, r) ==> r == x }

  /** Every expression has exactly one meaning, the computed one. */
  lemma {:induction false} MeaningMeans(t: Tree, env: Env)
    ensures Only(t, env, Meaning(t, env))
  {
    match t
    case Num(n) =>
    case Ref(name) => NameMeans(name, env);
    case Un(op, a) =>
      MeaningMeans(a, env);
      UnaryMeaning(op, a, env, Meaning(a, env));
    case Bin(op, a, b) =>
      MeaningMeans(a, env);
      MeaningMeans(b, env);
      BinaryMeaning(op, a, b, env, Meaning(a, env), Meaning(b, env));
    case If(c, a, b) =>
      MeaningMeans(c, env);
      MeaningMeans(a, env);
      MeaningMeans(b, env);
      CondMeaning(c, a, b, env, Meaning(c, env), Meaning(a, env), Meaning(b, env));
  }

  lemma NameMeans(name: string, env: Env)
    ensures Only(Ref(name), env, Val(LookUp(env, name)))
  {
    if name != "" && name in env {
      forall v ensures N.Worth(env[name], v) <==> v == TextValue(env[name]) { N.TextIsWorth(env[name], v); }
    }
  }

  lemma UnaryMeaning(op: UnaryOp, a: Tree, env: Env, x: Outcome)
    requires Only(a, env, x)
    ensures Only(Un(op, a), env, if x.Err? then x else ApplyUnary(op, x.v))
  {
    if x.Val? {
      forall r ensures M.GivesUnary(op, x.v, r) <==> r == ApplyUnary(op, x.v) { M.UnaryMeans(op, x.v, r); }
    }
  }

  lemma BinaryMeaning(op: BinaryOp, a: Tree, b: Tree, env: Env, x: Outcome, y: Outcome)
    requires Only(a, env, x) && Only(b, env, y)
    ensures Only(Bin(op, a, b), env, Both(op, x, y))
  {
    var t, v := Bin(op, a, b), Both(op, x, y);
    forall r ensures BinaryOf(op, x, y, r) <==> r == v {
      if x.Val? && y.Val? { M.OperatorsMean(op, x.v, y.v, r); }
    }
    forall r | Means(t, env, r) ensures r == v {
      var x', y' :| Means(a, env, x') && Means(b, env, y') && BinaryOf(op, x', y', r);
    }
  }

  lemma CondMeaning(c: Tree, a: Tree, b: Tree, env: Env, x: Outcome, y: Outcome, z: Outcome)
    requires Only(c, env, x) && Only(a, env, y) && Only(b, env, z)
    ensures Only(If(c, a, b), env, ChoiceOf(x, y, z))
  {
    var t := If(c, a, b);
    forall r | Means(t, env, r) ensures r == ChoiceOf(x, y, z) {
      var x', y', z' :| Means(c, env, x') && Means(a, env, y') && Means(b, env, z') && r == ChoiceOf(x', y', z');
    }
  }

  predicate WellFormed(t: Tree) {
    match t
    case Num(_) => true
    case Ref(name) => IsName(name)
    case Un(_, a) => WellFormed(a)
    case Bin(_, a, b) => WellFormed(a) && WellFormed(b)
    case If(c, a, b) => WellFormed(c) && WellFormed(a) && WellFormed(b)
  }

  // ---------------------------------------------------------------- written expressions

  /** How the operators are written, and how tightly they bind. */
  function Symbol(op: BinaryOp): (s: string)
    ensures 1 <= |s| <= 2 && s == OpText(op)
  {
    match op
    case LogOr => "||" case LogAnd => "&&" case BitOr => "|" case BitXor => "^" case BitAnd => "&"
    case Eq => "==" case Ne => "!=" case Lt => "<" case Le => "<=" case Gt => ">" case Ge => ">="
    case Shl => "<<" case Shr => ">>" case Add => "+" case Sub => "-"
    case Mul => "*" case Div => "/" case Mod => "%" case Pow => "**"
  }

  function Rank(op: BinaryOp): (r: nat)
    ensures 1 <= r <= 11 && r == OpLevel(op)
  {
    match op
    case LogOr => 1
    case LogAnd => 2
    case BitOr => 3
    case BitXor => 4
    case BitAnd => 5
    case Eq | Ne => 6
    case Lt | Le | Gt | Ge => 7
    case Shl | Shr => 8
    case Add | Sub => 9
    case Mul | Div | Mod => 10
    case Pow => 11
  }

  /**
  A tree with its layout: white space before every token, parentheses, nested `$((...))`, and `$`
  before names, which then may be empty or start with a digit.
  */
  datatype Expr =
    | Lit(ws: string, digits: string, n: nat)
    | Name(ws: string, dollar: bool, name: string)
    | Paren(ws: string, inner: Expr, close: string)
    | Nested(ws: string, inner: Expr, close: string, cut: string)
    | Prefix(ws: string, uop: UnaryOp, arg: Expr)
    | Infix(left: Expr, gap: string, bop: BinaryOp, right: Expr)
    | Cond(cond: Expr, gap: string, yes: Expr, gap': string, no: Expr)

  function LevelOf(e: Expr): (level: nat)
    ensures level <= 13
  {
    match e
    case Lit(_, _, _) => 13
    case Name(_, _, _) => 13
    case Paren(_, _, _) => 13
    case Nested(_, _, _, _) => 13
    case Prefix(_, _, _) => 12
    case Infix(_, _, op, _) => Rank(op)
    case Cond(_, _, _, _, _) => 0
  }

  /** `e` is written with at least the parentheses that precedence and associativity need. */
  ghost predicate Written(e: Expr) {
    match e
    case Lit(ws, digits, n) => AllSpace(ws) && Numerals.Numeral(digits, n)
    case Name(ws, dollar, name) => AllSpace(ws) && (IsName(name) || (dollar && AllNameChars(name)))
    case Paren(ws, a, close) => AllSpace(ws) && AllSpace(close) && Written(a)
    case Nested(ws, a, close, cut) =>
      AllSpace(ws) && AllSpace(close) && Written(a) &&
      ClosesItself(Emit(a, close) + cut) && CutBehind(Emit(a, close), cut)
    case Prefix(ws, _, a) => AllSpace(ws) && Written(a) && LevelOf(a) >= 12
    case Infix(a, gap, op, b) =>
      AllSpace(gap) && Written(a) && Written(b) &&
      (if op == Pow then LevelOf(a) >= 12 && LevelOf(b) >= 11
       else LevelOf(a) >= Rank(op) && LevelOf(b) > Rank(op))
    case Cond(c, gap, a, gap', b) =>
      AllSpace(gap) && AllSpace(gap') && Written(c) && Written(a) && Written(b) &&
      LevelOf(c) >= 1 && LevelOf(a) >= 1 && LevelOf(b) >= 1
  }

  /** Of a nested expression 8191 characters are read; what stands behind them is cut off. */
  predicate CutBehind(text: string, cut: string) { |text| <= 8191 && (cut != "" ==> |text| == 8191) }

  /** No expansion starts in `text`, and no two closing parentheses are side by side. */
  predicate Lone(text: string) {
    (forall i :: 0 <= i && i + 2 < |text| ==> !(text[i] == '$' && text[i + 1] == '(' && text[i + 2] == '('))
    && forall i :: 0 <= i && i + 1 < |text| ==> !(text[i] == ')' && text[i + 1] == ')')
  }

  /**
  The parentheses behind `text` close it, and none in it do: two closing parentheses side by side,
  or one at the end, occur only where they close an expansion inside.
  */
  ghost predicate ClosesItself(text: string)
    decreases |text|
  {
    (Lone(text) && !(text != "" && text[|text| - 1] == ')'))
    || exists before, inner, after ::
         Opens(text, before, inner, after) && Lone(before) && ClosesItself(inner) && ClosesItself(after)
  }

  /** An expansion with `inner` in it begins in `text` behind `before`. */
  predicate Opens(text: string, before: string, inner: string, after: string)
    ensures Opens(text, before, inner, after) ==> |inner| < |text| && |after| < |text|
  {
    text == before + ("$((" + (inner + ("))" + after)))
  }

  function UnaryChar(op: UnaryOp): (c: char) {
    match op case Minus => '-' case Plus => '+' case LogNot => '!' case BitNot => '~'
  }

  /** The text of `e`, followed by `k`. */
  function Emit(e: Expr, k: string): (s: string)
    decreases e
  {
    match e
    case Lit(ws, digits, n) => ws + (digits + k)
    case Name(ws, dollar, name) => ws + ((if dollar then "$" else "") + (name + k))
    case Paren(ws, a, close) => ws + (['('] + Emit(a, close + ([')'] + k)))
    case Nested(ws, a, close, cut) => ws + ("$((" + (Emit(a, close) + cut + ("))" + k)))
    case Prefix(ws, op, a) => ws + ([UnaryChar(op)] + Emit(a, k))
    case Infix(a, gap, op, b) => Emit(a, gap + (Symbol(op) + Emit(b, k)))
    case Cond(c, gap, a, gap', b) => Emit(c, gap + (['?'] + Emit(a, gap' + ([':'] + Emit(b, k)))))
  }

  /** The tree that `e` writes. */
  function TreeOf(e: Expr): (t: Tree) {
    match e
    case Lit(_, _, n) => Num(n)
    case Name(_, _, name) => Ref(name)
    case Paren(_, a, _) => TreeOf(a)
    case Nested(_, a, _, _) => TreeOf(a)
    case Prefix(_, op, a) => Un(op, TreeOf(a))
    case Infix(a, _, op, b) => Bin(op, TreeOf(a), TreeOf(b))
    case Cond(c, _, a, _, b) => If(TreeOf(c), TreeOf(a), TreeOf(b))
  }

  /** The tree that the evaluator reads: names are cut to its buffer. */
  function ReadTree(e: Expr): (t: Tree) {
    match e
    case Lit(_, _, n) => Num(n)
    case Name(_, _, name) => Ref(CutName(name))
    case Paren(_, a, _) => ReadTree(a)
    case Nested(_, a, _, _) => ReadTree(a)
    case Prefix(_, op, a) => Un(op, ReadTree(a))
    case Infix(a, _, op, b) => Bin(op, ReadTree(a), ReadTree(b))
    case Cond(c, _, a, _, b) => If(ReadTree(c), ReadTree(a), ReadTree(b))
  }

  lemma {:induction false} ReadTreeCutsNames(e: Expr)
    ensures ReadTree(e) == CutNames(TreeOf(e))
  {
    match e
    case Lit(_, _, _) =>
    case Name(_, _, _) =>
    case Paren(_, a, _) => ReadTreeCutsNames(a);
    case Nested(_, a, _, _) => ReadTreeCutsNames(a);
    case Prefix(_, _, a) => ReadTreeCutsNames(a);
    case Infix(a, _, _, b) => ReadTreeCutsNames(a); ReadTreeCutsNames(b);
    case Cond(c, _, a, _, b) => ReadTreeCutsNames(c); ReadTreeCutsNames(a); ReadTreeCutsNames(b);
  }

  // ---------------------------------------------------------------- what may follow an expression

  /** No loop of `level` or above goes on at `k`, and `k` does not prolong a numeral, a name or a `$`. */
  ghost predicate Stops(level: nat, k: string) {
    (k == "" || (!IsNameChar(k[0]) && k[0] != '(')) &&
    (forall l :: level <= l <= 11 ==> MatchOp(l, SkipWs(k)) == None) &&
    (level == 0 ==> !At(SkipWs(k), 0, '?'))
  }

  /** Characters an operand can start with, white space included. */
  predicate OperandStart(c: char) {
    IsSpace(c) || IsNameChar(c) || c == '$' || c == '(' || c == '-' || c == '+' || c == '!' || c == '~'
  }

  lemma {:induction false} SkipGap(gap: string, k: string)
    requires AllSpace(gap)
    ensures SkipWs(gap + k) == SkipWs(k)
  {
    if gap == "" {
      assert gap + k == k;
    } else {
      assert (gap + k)[1..] == gap[1..] + k;
      SkipGap(gap[1..], k);
    }
  }

  lemma SkipTwice(s: string)
    ensures SkipWs(SkipWs(s)) == SkipWs(s)
  {
  }

  lemma {:induction false} EmitStarts(e: Expr, k: string)
    requires Written(e)
    ensures Emit(e, k) != "" && OperandStart(Emit(e, k)[0])
    decreases e
  {
    match e
    case Lit(ws, digits, n) =>
      N.NumeralRead(digits, n, "");
      assert digits + "" == digits;
      if ws != "" { assert IsSpace(ws[0]); }
    case Name(ws, _, name) => if ws != "" { assert IsSpace(ws[0]); }
    case Paren(ws, _, _) => if ws != "" { assert IsSpace(ws[0]); }
    case Nested(ws, _, _, _) => if ws != "" { assert IsSpace(ws[0]); }
    case Prefix(ws, _, _) => if ws != "" { assert IsSpace(ws[0]); }
    case Infix(a, gap, op, b) => EmitStarts(a, gap + (Symbol(op) + Emit(b, k)));
    case Cond(c, gap, a, gap', b) => EmitStarts(c, gap + (['?'] + Emit(a, gap' + ([':'] + Emit(b, k)))));
  }

  /** An operator in front of an operand is seen by its own level and by no tighter one. */
  lemma OperatorIsSeen(op: BinaryOp, k: string)
    requires k != "" && OperandStart(k[0])
    ensures MatchOp(Rank(op), Symbol(op) + k) == Some(op)
    ensures forall l :: Rank(op) < l <= 11 ==> MatchOp(l, Symbol(op) + k) == None
  {
    var s := Symbol(op) + k;
    assert s[0] == Symbol(op)[0] && s[1] == if |Symbol(op)| == 1 then k[0] else Symbol(op)[1];
  }

  lemma OperatorStops(op: BinaryOp, gap: string, k: string)
    requires AllSpace(gap) && k != "" && OperandStart(k[0])
    ensures SkipWs(gap + (Symbol(op) + k)) == Symbol(op) + k
    ensures MatchOp(Rank(op), Symbol(op) + k) == Some(op)
    ensures Stops(Rank(op) + 1, gap + (Symbol(op) + k))
  {
    SkipGap(gap, Symbol(op) + k);
    OperatorIsSeen(op, k);
    if gap != "" { assert IsSpace(gap[0]); }
  }

  lemma CharStops(c: char, gap: string, k: string)
    requires AllSpace(gap) && (c == ')' || c == ':' || c == '?')
    ensures SkipWs(gap + ([c] + k)) == [c] + k
    ensures Stops(if c == '?' then 1 else 0, gap + ([c] + k))
  {
    SkipGap(gap, [c] + k);
    if gap != "" { assert IsSpace(gap[0]); }
  }

  // ---------------------------------------------------------------- names

  lemma {:induction false} NameRead(name: string, k: string)
    requires forall i :: 0 <= i < |name| ==> IsNameChar(name[i])
    requires k == "" || !IsNameChar(k[0])
    ensures NameLength(name + k) == |name|
    decreases |name|
  {
    if name == "" {
      assert name + k == k;
    } else {
      assert (name + k)[1..] == name[1..] + k;
      NameRead(name[1..], k);
    }
  }

  // ---------------------------------------------------------------- the evaluator reads what was written

  /** What `level` yields when it has read an expression with this meaning in front of `k`. */
  function Read(r: Outcome, level: nat, k: string): (p: Parse) {
    Yield(r, if level <= 11 then SkipWs(k) else k)
  }

  // The shape of one step of each level, with what the inner levels yield given.

  lemma LitShape(ws: string, digits: string, n: nat, k: string, env: Env)
    requires AllSpace(ws) && Numerals.Numeral(digits, n) && Stops(13, k)
    ensures Primary(ws + (digits + k), env) == Ok(Clamp(n), k)
    ensures MatchUnary(SkipWs(ws + (digits + k))) == None
  {
    SkipGap(ws, digits + k);
    N.NumeralRead(digits, n, k);
  }

  lemma NameShape(ws: string, dollar: bool, name: string, k: string, env: Env)
    requires AllSpace(ws) && (IsName(name) || (dollar && AllNameChars(name))) && Stops(13, k)
    ensures var s := ws + ((if dollar then "$" else "") + (name + k));
            Primary(s, env) == Ok(LookUp(env, CutName(name)), k) && MatchUnary(SkipWs(s)) == None
  {
    var body := name + k;
    var t := (if dollar then "$" else "") + body;
    SkipGap(ws, t);
    assert name != "" ==> body[0] == name[0] && IsNameChar(name[0]);
    assert name == "" ==> body == k;
    assert dollar ==> t[1..] == body && (body != "" ==> t[1] == body[0]);
    assert !dollar ==> t == body;
    assert t[0] == '$' || IsNameChar(t[0]);
    assert SkipWs(t) == t && MatchUnary(t) == None;
    NameRead(name, k);
    assert body[..|name|] == name && body[|name|..] == k;
  }

  lemma ParenShape(ws: string, body: string, r: Outcome, close: string, k: string, env: Env)
    requires AllSpace(ws) && AllSpace(close)
    requires Level(0, body, env) == Read(r, 0, close + ([')'] + k))
    ensures var s := ws + (['('] + body);
            Primary(s, env) == Yield(r, k) && MatchUnary(SkipWs(s)) == None
  {
    SkipGap(ws, ['('] + body);
    assert (['('] + body)[1..] == body;
    SkipGap(close, [')'] + k);
    assert ([')'] + k)[1..] == k;
  }

  /** Where the scan is when it has passed a text that closes itself, and the parentheses behind it. */
  function Behind(s: string, end: nat, depth: nat): (r: Option<nat>)
    requires end + 2 <= |s| && depth > 0
  {
    if depth == 1 then Some(end) else NestedEnd(s, end + 2, depth - 1)
  }

  predicate Follows(s: string, i: nat, t: string) { i <= |s| && s[i..] == t }

  lemma FollowsNext(s: string, i: nat, t: string, rest: string, next: nat)
    requires Follows(s, i, t + rest) && next == i + |t|
    ensures Follows(s, next, rest) && s[i..next] == t
  {
    assert s[next..] == s[i..][|t|..];
    assert s[i..next] == s[i..][..|t|];
  }

  /** The scan passes over a text in which nothing opens or closes. */
  lemma {:induction false} LonePassed(s: string, i: nat, t: string, rest: string, next: nat, depth: nat)
    requires Follows(s, i, t + rest) && next == i + |t| && Lone(t) && depth > 0
    requires At(rest, 0, '$') || !(t != "" && t[|t| - 1] == ')')
    requires rest != "" && (rest[0] == '$' || rest[0] == ')')
    ensures NestedEnd(s, i, depth) == NestedEnd(s, next, depth)
    decreases |t|
  {
    FollowsNext(s, i, t, rest, next);
    if t != "" {
      var t', i' := t[1..], i + 1;
      assert t + rest == [t[0]] + (t' + rest);
      FollowsNext(s, i, [t[0]], t' + rest, i');
      OneLonePassed(s, i, t, rest, next, depth);
      assert forall k :: 0 <= k < |t'| ==> t'[k] == t[k + 1];
      LonePassed(s, i', t', rest, next, depth);
    }
  }

  lemma OneLonePassed(s: string, i: nat, t: string, rest: string, next: nat, depth: nat)
    requires i < |s| && s[i..] == t + rest && next == i + |t| && Lone(t) && depth > 0 && t != ""
    requires At(rest, 0, '$') || t[|t| - 1] != ')'
    requires rest != "" && (rest[0] == '$' || rest[0] == ')')
    ensures NestedEnd(s, i, depth) == NestedEnd(s, i + 1, depth)
  {
    var u := t + rest;
    assert s[i] == u[0] && (|u| > 1 ==> s[i + 1] == u[1]) && (|u| > 2 ==> s[i + 2] == u[2]);
  }

  /** A text that closes itself is passed over, up to the parentheses behind it, in any surroundings. */
  lemma {:induction false} ClosedPassed(s: string, i: nat, t: string, k: string, end: nat, depth: nat)
    requires Follows(s, i, t + ("))" + k)) && end == i + |t| && ClosesItself(t) && depth > 0
    ensures end + 2 <= |s| && NestedEnd(s, i, depth) == Behind(s, end, depth)
    decreases |t|
  {
    if Lone(t) && !(t != "" && t[|t| - 1] == ')') {
      LoneClosed(s, i, t, k, end, depth);
    } else {
      var before, inner, after := Opened(t);
      var start := i + |before| + 3;
      OpensIn(s, i, t, before, inner, after, "))" + k, start, depth);
      var mid := start + |inner|;
      InnerClosed(s, start, inner, after, k, mid, mid + 2, end, depth);
    }
  }

  /** Through an expansion, and on to the end. */
  lemma {:induction false} InnerClosed(
      s: string, start: nat, inner: string, after: string, k: string, mid: nat, next: nat, end: nat, depth: nat)
    requires Follows(s, start, inner + ("))" + (after + ("))" + k)))) && ClosesItself(inner) && ClosesItself(after)
    requires mid == start + |inner| && next == mid + 2 && end == next + |after| && depth > 0
    ensures end + 2 <= |s| && NestedEnd(s, start, depth + 1) == Behind(s, end, depth)
    decreases |inner| + |after| + 1, 0
  {
    var rest := after + ("))" + k);
    FollowsNext(s, start, inner, "))" + rest, mid);
    FollowsNext(s, mid, "))", rest, next);
    ClosedPassed(s, start, inner, rest, mid, depth + 1);
    ClosedPassed(s, next, after, k, end, depth);
  }

  lemma LoneClosed(s: string, i: nat, t: string, k: string, end: nat, depth: nat)
    requires Follows(s, i, t + ("))" + k)) && end == i + |t| && depth > 0
    requires Lone(t) && !(t != "" && t[|t| - 1] == ')')
    ensures end + 2 <= |s| && NestedEnd(s, i, depth) == Behind(s, end, depth)
  {
    FollowsNext(s, i, t, "))" + k, end);
    FollowsNext(s, end, "))", k, end + 2);
    LonePassed(s, i, t, "))" + k, end, depth);
    PairCloses(s, end, k, depth);
  }

  lemma Opened(t: string) returns (before: string, inner: string, after: string)
    requires ClosesItself(t) && !(Lone(t) && !(t != "" && t[|t| - 1] == ')'))
    ensures Opens(t, before, inner, after) && Lone(before) && ClosesItself(inner) && ClosesItself(after)
    ensures |t| == |before| + 3 + |inner| + 2 + |after|
  {
    before, inner, after :|
      Opens(t, before, inner, after) && Lone(before) && ClosesItself(inner) && ClosesItself(after);
  }

  lemma PairCloses(s: string, end: nat, k: string, depth: nat)
    requires Follows(s, end, "))" + k) && end + 2 <= |s| && s[end..end + 2] == "))" && depth > 0
    ensures NestedEnd(s, end, depth) == Behind(s, end, depth)
  {
    assert s[end] == s[end..end + 2][0] && s[end + 1] == s[end..end + 2][1];
  }

  /** Up to the opening, and what follows behind it. */
  lemma OpensIn(
      s: string, i: nat, t: string, before: string, inner: string, after: string, close: string, start: nat, depth: nat)
    requires Follows(s, i, t + close) && Opens(t, before, inner, after) && Lone(before)
    requires start == i + |before| + 3 && depth > 0
    ensures Follows(s, start, inner + ("))" + (after + close)))
    ensures start <= |s| && NestedEnd(s, i, depth) == NestedEnd(s, start, depth + 1)
  {
    var tail := inner + ("))" + (after + close));
    assert t + close == before + ("$((" + tail);
    FollowsNext(s, i, before, "$((" + tail, i + |before|);
    FollowsNext(s, i + |before|, "$((", tail, start);
    InnerOpens(s, i, before, tail, start, depth);
  }

  lemma InnerOpens(s: string, i: nat, before: string, tail: string, start: nat, depth: nat)
    requires Follows(s, i, before + ("$((" + tail)) && start == i + |before| + 3 && Lone(before) && depth > 0
    ensures start <= |s| && NestedEnd(s, i, depth) == NestedEnd(s, start, depth + 1)
  {
    var j := i + |before|;
    LonePassed(s, i, before, "$((" + tail, j, depth);
    FollowsNext(s, i, before, "$((" + tail, j);
    FollowsNext(s, j, "$((", tail, start);
    assert s[j] == s[j..start][0] && s[j + 1] == s[j..start][1] && s[j + 2] == s[j..start][2];
  }

  lemma NestedShape(ws: string, text: string, cut: string, r: Outcome, k: string, env: Env)
    requires AllSpace(ws) && ClosesItself(text + cut) && CutBehind(text, cut) && Evaluate(text, env) == r
    ensures var s := ws + ("$((" + (text + cut + ("))" + k)));
            Primary(s, env) == Yield(r, k) && MatchUnary(SkipWs(s)) == None
  {
    var t := "$((" + (text + cut + ("))" + k));
    SkipGap(ws, t);
    NestedFound(t, text + cut, k, 3 + |text + cut|);
    assert Truncated(text + cut) == text;
  }

  lemma NestedFound(t: string, text: string, k: string, end: nat)
    requires ClosesItself(text) && t == "$((" + (text + ("))" + k)) && end == 3 + |text|
    ensures |t| >= end + 2 && t[0] == '$' && t[1] == '(' && t[2] == '('
    ensures NestedEnd(t, 3, 1) == Some(end) && t[3..end] == text && t[end + 2..] == k
  {
    assert t[0..] == t;
    FollowsNext(t, 0, "$((", text + ("))" + k), 3);
    FollowsNext(t, 3, text, "))" + k, end);
    FollowsNext(t, end, "))", k, end + 2);
    ClosedPassed(t, 3, text, k, end, 1);
  }

  lemma PrefixShape(ws: string, op: UnaryOp, body: string, env: Env)
    requires AllSpace(ws)
    ensures var s := ws + ([UnaryChar(op)] + body);
            var p := UnaryLevel(body, env);
            UnaryLevel(s, env) == if p.Fail? then p else Yield(ApplyUnary(op, p.v), p.rest)
  {
    SkipGap(ws, [UnaryChar(op)] + body);
    assert ([UnaryChar(op)] + body)[1..] == body;
  }

  lemma PrimaryShape(s: string, env: Env)
    requires MatchUnary(SkipWs(s)) == None
    ensures UnaryLevel(s, env) == Primary(s, env)
  {
    SkipTwice(s);
  }

  function Both(op: BinaryOp, x: Outcome, y: Outcome): Outcome {
    var a :- x; var b :- y; ApplyBinary(op, a, b)
  }

  lemma PowerShape(s: string, x: Outcome, gap: string, tail: string, y: Outcome, k: string, env: Env)
    requires UnaryLevel(s, env) == Read(x, 12, gap) && SkipWs(gap) == Symbol(Pow) + tail
    requires PowerLevel(tail, env) == Read(y, 11, k)
    ensures PowerLevel(s, env) == Read(Both(Pow, x, y), 11, k)
  {
    PowerText(tail);
  }

  lemma PowerText(tail: string)
    ensures MatchOp(11, Symbol(Pow) + tail).Some? && (Symbol(Pow) + tail)[2..] == tail
  {
  }

  lemma NoPowerShape(s: string, r: Outcome, k: string, env: Env)
    requires UnaryLevel(s, env) == Read(r, 12, k) && Stops(11, k)
    ensures PowerLevel(s, env) == Read(r, 11, k)
  {
  }

  lemma ChainShape(level: nat, left: int, k: string, op: BinaryOp, tail: string, r: Outcome, k': string, env: Env)
    requires 1 <= level <= 10 && Rank(op) == level
    requires SkipWs(k) == Symbol(op) + tail && MatchOp(level, SkipWs(k)) == Some(op)
    requires Level(level + 1, tail, env) == Read(r, level + 1, k')
    ensures var w := if r.Err? then r else ApplyBinary(op, left, r.v);
            Chain(level, left, k, env) == if w.Err? then Fail(w.e) else Chain(level, w.v, k', env)
  {
    assert (Symbol(op) + tail)[|Symbol(op)|..] == tail;
    Writer.ChainGoesOn(level, left, k, op, Level(level + 1, tail, env), env);
    if r.Val? && ApplyBinary(op, left, r.v).Val? { ChainSkips(level, ApplyBinary(op, left, r.v).v, k', env); }
  }

  lemma ChainSkips(level: nat, v: int, k: string, env: Env)
    requires 1 <= level <= 10
    ensures Chain(level, v, SkipWs(k), env) == Chain(level, v, k, env)
  {
    SkipTwice(k);
  }

  lemma BranchesShape(c: int, yes: string, y: Outcome, k: string, no: string, z: Outcome, k': string, env: Env)
    requires Level(1, yes, env) == Read(y, 1, k) && SkipWs(k) == [':'] + no
    requires Level(1, no, env) == Read(z, 1, k')
    ensures Branches(c, ['?'] + yes, env)
         == if y.Err? then Fail(y.e) else if z.Err? then Fail(z.e) else Ok(if c != 0 then y.v else z.v, SkipWs(k'))
  {
    SkipTwice(k);
    assert (['?'] + yes)[1..] == yes && ([':'] + no)[1..] == no;
  }

  lemma CondShape(s: string, c: Outcome, k: string, env: Env)
    requires Level(1, s, env) == Read(c, 1, k)
    ensures Ternary(s, env) == if c.Err? then Fail(c.e) else Branches(c.v, SkipWs(k), env)
  {
    SkipTwice(k);
  }

  lemma NoCondShape(s: string, r: Outcome, k: string, env: Env)
    requires Level(1, s, env) == Read(r, 1, k) && Stops(0, k)
    ensures Ternary(s, env) == Read(r, 0, k)
  {
    SkipTwice(k);
  }

  lemma LevelIsChain(level: nat, s: string, env: Env)
    requires 1 <= level <= 10
    ensures var p := Level(level + 1, s, env);
            Level(level, s, env) == if p.Fail? then p else Chain(level, p.v, p.rest, env)
  {
  }

  lemma {:induction false} ReadsUnary(e: Expr, k: string, env: Env)
    requires Written(e) && LevelOf(e) >= 12 && Stops(12, k)
    ensures UnaryLevel(Emit(e, k), env) == Read(Meaning(ReadTree(e), env), 12, k)
    decreases e, 1
  {
    match e
    case Prefix(ws, op, a) =>
      PrefixShape(ws, op, Emit(a, k), env);
      ReadsUnary(a, k, env);
    case Lit(ws, digits, n) =>
      LitShape(ws, digits, n, k, env);
      PrimaryShape(Emit(e, k), env);
    case Name(ws, dollar, name) =>
      NameShape(ws, dollar, name, k, env);
      PrimaryShape(Emit(e, k), env);
    case Paren(ws, a, close) =>
      var k' := close + ([')'] + k);
      CharStops(')', close, k);
      Reads(a, 0, k', env);
      ParenShape(ws, Emit(a, k'), Meaning(ReadTree(a), env), close, k, env);
      PrimaryShape(Emit(e, k), env);
    case Nested(ws, a, close, cut) =>
      SpaceStops(close);
      Reads(a, 0, close, env);
      ReadEvaluates(Emit(a, close), Meaning(ReadTree(a), env), close, env);
      NestedShape(ws, Emit(a, close), cut, Meaning(ReadTree(a), env), k, env);
      PrimaryShape(Emit(e, k), env);
    case Infix(_, _, _, _) =>
  }

  lemma {:induction false} ReadsPower(e: Expr, k: string, env: Env)
    requires Written(e) && LevelOf(e) >= 11 && Stops(11, k)
    ensures PowerLevel(Emit(e, k), env) == Read(Meaning(ReadTree(e), env), 11, k)
    decreases e, 2
  {
    if LevelOf(e) >= 12 {
      ReadsUnary(e, k, env);
      NoPowerShape(Emit(e, k), Meaning(ReadTree(e), env), k, env);
    } else {
      var Infix(a, gap, op, b) := e;
      PowerGap(gap, b, k);
      ReadsUnary(a, gap + (Symbol(Pow) + Emit(b, k)), env);
      ReadsPower(b, k, env);
      PowerInfix(a, gap, b, k, env);
    }
  }

  lemma PowerGap(gap: string, b: Expr, k: string)
    requires AllSpace(gap) && Written(b)
    ensures Stops(12, gap + (Symbol(Pow) + Emit(b, k)))
    ensures SkipWs(gap + (Symbol(Pow) + Emit(b, k))) == Symbol(Pow) + Emit(b, k)
  {
    EmitStarts(b, k);
    OperatorStops(Pow, gap, Emit(b, k));
  }

  lemma PowerInfix(a: Expr, gap: string, b: Expr, k: string, env: Env)
    requires AllSpace(gap) && Written(b)
    requires UnaryLevel(Emit(a, gap + (Symbol(Pow) + Emit(b, k))), env) ==
             Read(Meaning(ReadTree(a), env), 12, gap + (Symbol(Pow) + Emit(b, k)))
    requires PowerLevel(Emit(b, k), env) == Read(Meaning(ReadTree(b), env), 11, k)
    ensures var e := Infix(a, gap, Pow, b); PowerLevel(Emit(e, k), env) == Read(Meaning(ReadTree(e), env), 11, k)
  {
    var e, tail := Infix(a, gap, Pow, b), Emit(b, k);
    var x, y, k' := Meaning(ReadTree(a), env), Meaning(ReadTree(b), env), gap + (Symbol(Pow) + tail);
    assert Meaning(ReadTree(e), env) == Both(Pow, x, y);
    assert Emit(e, k) == Emit(a, k');
    PowerGap(gap, b, k);
    PowerShape(Emit(a, k'), x, k', tail, y, k, env);
  }

  /** What the loop of `level` makes of an expression with this meaning in front of `k`. */
  function IntoChain(r: Outcome, level: nat, k: string, env: Env): (p: Parse)
    requires 1 <= level <= 10
  {
    if r.Err? then Fail(r.e) else Chain(level, r.v, k, env)
  }

  lemma DescendShape(level: nat, inner: nat, s: string, r: Outcome, k: string, env: Env)
    requires 1 <= level <= 10 && inner == level + 1 && Level(inner, s, env) == Read(r, inner, k)
    ensures Level(level, s, env) == IntoChain(r, level, k, env)
  {
    LevelIsChain(level, s, env);
    if r.Val? { ChainSkips(level, r.v, k, env); }
  }

  /** Up to a following operator of its own level: the loop has the value of `e` in hand. */
  lemma {:induction false} ReadsIntoChain(e: Expr, level: nat, k: string, env: Env)
    requires 1 <= level <= 10 && Written(e) && LevelOf(e) >= level && Stops(level + 1, k)
    ensures Level(level, Emit(e, k), env) == IntoChain(Meaning(ReadTree(e), env), level, k, env)
    decreases e, 14 - level, 0
  {
    if LevelOf(e) > level {
      var inner := level + 1;
      Reads(e, inner, k, env);
      DescendShape(level, inner, Emit(e, k), Meaning(ReadTree(e), env), k, env);
    } else {
      ReadsInfix(e, level, k, env);
    }
  }

  lemma {:induction false} ReadsInfix(e: Expr, level: nat, k: string, env: Env)
    requires 1 <= level <= 10 && Written(e) && e.Infix? && LevelOf(e) == level && Stops(level + 1, k)
    ensures Level(level, Emit(e, k), env) == IntoChain(Meaning(ReadTree(e), env), level, k, env)
    decreases e, 0, 0
  {
    var Infix(a, gap, op, b) := e;
    var tail := Emit(b, k);
    var k' := gap + (Symbol(op) + tail);
    var x, y := Meaning(ReadTree(a), env), Meaning(ReadTree(b), env);
    assert Level(level, Emit(a, k'), env) == IntoChain(x, level, k', env) by {
      EmitStarts(b, k);
      OperatorStops(op, gap, tail);
      ReadsIntoChain(a, level, k', env);
    }
    assert Level(level + 1, tail, env) == Read(y, level + 1, k) by {
      Reads(b, level + 1, k, env);
    }
    if x.Val? {
      assert IntoChain(x, level, k', env)
          == IntoChain(if y.Err? then y else ApplyBinary(op, x.v, y.v), level, k, env) by {
        EmitStarts(b, k);
        OperatorStops(op, gap, tail);
        ChainShape(level, x.v, k', op, tail, y, k, env);
      }
    }
  }

  lemma {:induction false} ReadsTernary(e: Expr, k: string, env: Env)
    requires Written(e) && Stops(0, k)
    ensures Ternary(Emit(e, k), env) == Read(Meaning(ReadTree(e), env), 0, k)
    decreases e, 14, 0
  {
    if LevelOf(e) >= 1 {
      Reads(e, 1, k, env);
      NoCondShape(Emit(e, k), Meaning(ReadTree(e), env), k, env);
    } else {
      ReadsCond(e, k, env);
    }
  }

  lemma {:induction false} ReadsCond(e: Expr, k: string, env: Env)
    requires Written(e) && e.Cond? && Stops(0, k)
    ensures Ternary(Emit(e, k), env) == Read(Meaning(ReadTree(e), env), 0, k)
    decreases e, 0, 0
  {
    var Cond(c, gap, a, gap', b) := e;
    var no := Emit(b, k);
    var k'' := gap' + ([':'] + no);
    var yes := Emit(a, k'');
    var k' := gap + (['?'] + yes);
    var x, y, z := Meaning(ReadTree(c), env), Meaning(ReadTree(a), env), Meaning(ReadTree(b), env);
    assert Ternary(Emit(e, k), env) == if x.Err? then Fail(x.e) else Branches(x.v, ['?'] + yes, env) by {
      CharStops('?', gap, yes);
      Reads(c, 1, k', env);
      CondShape(Emit(c, k'), x, k', env);
    }
    if x.Val? {
      assert Branches(x.v, ['?'] + yes, env)
          == (if y.Err? then Fail(y.e)
              else if z.Err? then Fail(z.e)
              else Ok(if x.v != 0 then y.v else z.v, SkipWs(k))) by {
        CharStops(':', gap', no);
        Reads(a, 1, k'', env);
        Reads(b, 1, k, env);
        BranchesShape(x.v, yes, y, k'', no, z, k, env);
      }
    }
  }

  /** Every level reads exactly a written expression that fits it, whatever stops it behind. */
  lemma {:induction false} Reads(e: Expr, level: nat, k: string, env: Env)
    requires level <= 11 && Written(e) && LevelOf(e) >= level && Stops(level, k)
    ensures Level(level, Emit(e, k), env) == Read(Meaning(ReadTree(e), env), level, k)
    decreases e, 14 - level, 1
  {
    if level == 11 {
      ReadsPower(e, k, env);
    } else if level == 0 {
      ReadsTernary(e, k, env);
    } else {
      ReadsIntoChain(e, level, k, env);
      var r := Meaning(ReadTree(e), env);
      if r.Val? { Writer.ChainStops(level, r.v, k, env); }
    }
  }

  lemma SpaceStops(trail: string)
    requires AllSpace(trail)
    ensures Stops(0, trail) && SkipWs(trail) == ""
  {
    assert trail + "" == trail;
    SkipGap(trail, "");
    if trail != "" { assert IsSpace(trail[0]); }
  }

  /** A whole text is evaluated when the outermost level reads it up to white space. */
  lemma ReadEvaluates(text: string, r: Outcome, trail: string, env: Env)
    requires Level(0, text, env) == Read(r, 0, trail) && SkipWs(trail) == ""
    ensures Evaluate(text, env) == r
  {
    SkipTwice(trail);
  }

  /**
  Evaluating the text of any written expression, with white space behind it, consumes it all
  and gives the one meaning of its tree with names cut to the buffer, a value or the first error;
  it is the tree's own meaning when its names fit.
  */
  lemma EvaluateWritten(e: Expr, trail: string, env: Env)
    requires Written(e) && AllSpace(trail)
    ensures Only(CutNames(TreeOf(e)), env, Evaluate(Emit(e, trail), env))
    ensures NamesFit(TreeOf(e)) ==> Only(TreeOf(e), env, Evaluate(Emit(e, trail), env))
  {
    EvaluatesToMeaning(e, trail, env);
    MeaningMeans(CutNames(TreeOf(e)), env);
    CutNamesFit(TreeOf(e));
  }

  lemma EvaluatesToMeaning(e: Expr, trail: string, env: Env)
    requires Written(e) && AllSpace(trail)
    ensures Evaluate(Emit(e, trail), env) == Meaning(CutNames(TreeOf(e)), env)
  {
    SpaceStops(trail);
    Reads(e, 0, trail, env);
    ReadEvaluates(Emit(e, trail), Meaning(ReadTree(e), env), trail, env);
    ReadTreeCutsNames(e);
  }

  // ---------------------------------------------------------------- printing with the fewest parentheses

  function TreeLevel(t: Tree): (level: nat) {
    match t
    case Num(_) => 13
    case Ref(_) => 13
    case Un(_, _) => 12
    case Bin(op, _, _) => Rank(op)
    case If(_, _, _) => 0
  }

  /** Writes `t` where something of at least `level` is wanted, with parentheses only if `t` is below it. */
  function Print(t: Tree, level: nat): (e: Expr)
    decreases t, 1
  {
    if TreeLevel(t) >= level then PrintBare(t) else Paren("", PrintBare(t), "")
  }

  function PrintBare(t: Tree): (e: Expr)
    decreases t, 0
  {
    match t
    case Num(n) => Lit("", Decimal(n), n)
    case Ref(name) => Name("", false, name)
    case Un(op, a) => Prefix("", op, Print(a, 12))
    case Bin(op, a, b) =>
      if op == Pow then Infix(Print(a, 12), "", op, Print(b, 11))
      else Infix(Print(a, Rank(op)), "", op, Print(b, Rank(op) + 1))
    case If(c, a, b) => Cond(Print(c, 1), "", Print(a, 1), "", Print(b, 1))
  }

  lemma {:induction false} PrintIsWritten(t: Tree, level: nat)
    requires WellFormed(t) && level <= 13
    ensures Written(Print(t, level)) && LevelOf(Print(t, level)) >= level && TreeOf(Print(t, level)) == t
    decreases t, 1
  {
    PrintBareIsWritten(t);
  }

  lemma {:induction false} PrintBareIsWritten(t: Tree)
    requires WellFormed(t)
    ensures Written(PrintBare(t)) && LevelOf(PrintBare(t)) == TreeLevel(t) && TreeOf(PrintBare(t)) == t
    decreases t, 0
  {
    match t
    case Num(n) => Numerals.DecimalIsNumeral(n);
    case Ref(_) =>
    case Un(op, a) => PrintIsWritten(a, 12);
    case Bin(op, a, b) =>
      PrintIsWritten(a, if op == Pow then 12 else Rank(op));
      PrintIsWritten(b, if op == Pow then 11 else Rank(op) + 1);
    case If(c, a, b) => PrintIsWritten(c, 1); PrintIsWritten(a, 1); PrintIsWritten(b, 1);
  }

  /** The law of the evaluator: printing a tree and evaluating the text gives the tree's meaning. */
  lemma EvaluatePrinted(t: Tree, env: Env)
    requires WellFormed(t)
    ensures Only(CutNames(t), env, Evaluate(Emit(Print(t, 0), ""), env))
    ensures NamesFit(t) ==> Only(t, env, Evaluate(Emit(Print(t, 0), ""), env))
  {
    PrintIsWritten(t, 0);
    EvaluateWritten(Print(t, 0), "", env);
  }

  // ---------------------------------------------------------------- short circuits

  /** The value as C has it: `&&`, `||` and `?:` skip the operands they do not need. */
  function Lazy(t: Tree, env: Env): (r: Outcome) {
    match t
    case Num(n) => Val(Clamp(n))
    case Ref(name) => Val(LookUp(env, name))
    case Un(op, a) => var v :- Lazy(a, env); ApplyUnary(op, v)
    case Bin(op, a, b) =>
      var x :- Lazy(a, env);
      if Decides(op, x) then Val(Bool(x != 0)) else var y :- Lazy(b, env); ApplyBinary(op, x, y)
    case If(c, a, b) => var x :- Lazy(c, env); if x != 0 then Lazy(a, env) else Lazy(b, env)
  }

  /** Does the left operand alone decide the value? */
  predicate Decides(op: BinaryOp, x: int) { (op == LogAnd && x == 0) || (op == LogOr && x != 0) }

  /** Every operand that the lazy value skips has a strict value. */
  predicate SkipsNoError(t: Tree, env: Env) {
    match t
    case Num(_) => true
    case Ref(_) => true
    case Un(_, a) => SkipsNoError(a, env)
    case Bin(op, a, b) =>
      SkipsNoError(a, env)
      && var x := Lazy(a, env); if x.Val? && Decides(op, x.v) then Meaning(b, env).Val? else SkipsNoError(b, env)
    case If(c, a, b) =>
      SkipsNoError(c, env)
      && var x := Lazy(c, env);
         if x.Val? && x.v != 0 then SkipsNoError(a, env) && Meaning(b, env).Val?
         else Meaning(a, env).Val? && SkipsNoError(b, env)
  }

  /** The strict value, if there is one, is the lazy value, and there is one exactly when nothing skipped fails. */
  lemma {:induction false} StrictIsLazyIff(t: Tree, env: Env)
    ensures Meaning(t, env).Val? ==> Lazy(t, env) == Meaning(t, env)
    ensures Lazy(t, env).Val? ==> (Meaning(t, env) == Lazy(t, env) <==> SkipsNoError(t, env))
  {
    match t
    case Num(_) =>
    case Ref(_) =>
    case Un(_, a) => StrictIsLazyIff(a, env);
    case Bin(_, a, b) => StrictIsLazyIff(a, env); StrictIsLazyIff(b, env);
    case If(c, a, b) => StrictIsLazyIff(c, env); StrictIsLazyIff(a, env); StrictIsLazyIff(b, env);
  }

  /** Evaluating a text gives its lazy value exactly when no operand that need not be evaluated fails. */
  lemma EvaluatesLazilyIff(t: Tree, env: Env)
    requires WellFormed(t) && Lazy(CutNames(t), env).Val?
    ensures Evaluate(Emit(Print(t, 0), ""), env) == Lazy(CutNames(t), env) <==> SkipsNoError(CutNames(t), env)
  {
    PrintIsWritten(t, 0);
    EvaluatesToMeaning(Print(t, 0), "", env);
    StrictIsLazyIff(CutNames(t), env);
  }

  /** `0&&1/0` is 0 in C, and an error here. */
  lemma SkippedDivisionFails(env: Env, t: Tree)
    requires t == Bin(LogAnd, Num(0), Bin(Div, Num(1), Num(0)))
    ensures Lazy(t, env) == Val(0) && Evaluate(Emit(Print(t, 0), ""), env) == Err(DivisionByZero)
  {
    assert Lazy(Num(0), env) == Val(0);
    assert Meaning(Bin(Div, Num(1), Num(0)), env) == Err(DivisionByZero);
    assert Meaning(t, env) == Err(DivisionByZero);
    PrintIsWritten(t, 0);
    EvaluatesToMeaning(Print(t, 0), "", env);
  }
}
