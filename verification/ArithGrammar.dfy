/** The evaluator gives a value for written expressions only, and for each of them with a value. */
module ArithGrammar {
  import opened Text
  import opened Arith
  import opened ArithLaws
  import N = ArithNumerals
  import Numerals

  // ---------------------------------------------------------------- nested expansions

  /** What the scan for the end of an expansion passes first is a text that closes itself. */
  lemma {:induction false} ScanCloses(s: string, cursor: nat, depth: nat) returns (m: nat)
    requires cursor <= |s| && depth > 0 && NestedEnd(s, cursor, depth).Some?
    ensures cursor <= m && m + 2 <= |s| && ClosesItself(s[cursor..m]) && s[m] == ')' && s[m + 1] == ')'
    ensures NestedEnd(s, cursor, depth) == Behind(s, m, depth)
    decreases |s| - cursor
  {
    if At(s, cursor, '$') && At(s, cursor + 1, '(') && At(s, cursor + 2, '(') {
      var start := cursor + 3;
      var mid := ScanCloses(s, start, depth + 1);
      var next := mid + 2;
      m := ScanCloses(s, next, depth);
      ExpansionCloses(s, cursor, start, mid, next, m);
    } else if At(s, cursor, ')') && At(s, cursor + 1, ')') {
      m := cursor;
      assert s[cursor..m] == "";
    } else {
      var next := cursor + 1;
      m := ScanCloses(s, next, depth);
      OneMore(s, cursor, next, m);
    }
  }

  lemma ExpansionCloses(s: string, cursor: nat, start: nat, mid: nat, next: nat, m: nat)
    requires start == cursor + 3 <= mid && next == mid + 2 <= m <= |s|
    requires s[cursor] == '$' && s[cursor + 1] == '(' && s[cursor + 2] == '(' && s[mid] == ')' && s[mid + 1] == ')'
    requires ClosesItself(s[start..mid]) && ClosesItself(s[next..m])
    ensures ClosesItself(s[cursor..m])
  {
    var t, inner, after := s[cursor..m], s[start..mid], s[next..m];
    Joins(s, cursor, start, m);
    Joins(s, start, mid, m);
    Joins(s, mid, next, m);
    assert s[cursor..start] == "$((" && s[mid..next] == "))";
    ExpansionIsClosed(t, inner, after);
  }

  lemma ExpansionIsClosed(t: string, inner: string, after: string)
    requires t == "$((" + (inner + ("))" + after)) && ClosesItself(inner) && ClosesItself(after)
    ensures ClosesItself(t)
  {
    var none := "";
    assert Lone(none) && none + t == t;
    assert Opens(t, none, inner, after);
  }

  lemma Joins(s: string, a: nat, b: nat, c: nat)
    requires a <= b <= c <= |s|
    ensures s[a..c] == s[a..b] + s[b..c]
  {
  }

  /** A character at which nothing opens or closes, in front of a text that closes itself. */
  lemma OneMore(s: string, cursor: nat, next: nat, m: nat)
    requires next == cursor + 1 <= m && m + 2 <= |s| && s[m] == ')' && ClosesItself(s[next..m])
    requires !(At(s, cursor, '$') && At(s, cursor + 1, '(') && At(s, cursor + 2, '('))
    requires !(At(s, cursor, ')') && At(s, cursor + 1, ')'))
    ensures ClosesItself(s[cursor..m])
  {
    var c, t := s[cursor], s[next..m];
    assert s[cursor..m] == [c] + t;
    if Lone(t) && !(t != "" && t[|t| - 1] == ')') {
      LoneGrows(s, cursor, m, c, t, t);
      assert t == "" ==> next == m && c != ')';
      assert t != "" ==> ([c] + t)[|t|] == t[|t| - 1];
    } else {
      var before, inner, after := Opened(t);
      LoneGrows(s, cursor, m, c, before, t);
      OpensFurther(c, t, before, inner, after);
    }
  }

  lemma OpensFurther(c: char, t: string, before: string, inner: string, after: string)
    requires Opens(t, before, inner, after) && Lone([c] + before) && ClosesItself(inner) && ClosesItself(after)
    ensures ClosesItself([c] + t)
  {
    assert [c] + t == [c] + before + ("$((" + (inner + ("))" + after)));
    assert Opens([c] + t, [c] + before, inner, after);
  }

  lemma LoneGrows(s: string, cursor: nat, m: nat, c: char, before: string, t: string)
    requires cursor < m <= |s| && s[cursor..m] == [c] + t && before <= t && Lone(before)
    requires !(At(s, cursor, '$') && At(s, cursor + 1, '(') && At(s, cursor + 2, '('))
    requires !(At(s, cursor, ')') && At(s, cursor + 1, ')'))
    ensures Lone([c] + before)
  {
    var u := [c] + before;
    forall i | 0 <= i < |u| ensures u[i] == s[cursor + i] && (i > 0 ==> u[i] == before[i - 1]) {
      assert u[i] == s[cursor..m][i];
    }
  }

  // ---------------------------------------------------------------- what each level takes

  /** The level has read the written expression `e` off `s`, up to `k`. */
  ghost predicate Took(level: nat, s: string, e: Expr, k: string, rest: string) {
    Written(e) && LevelOf(e) >= level && s == Emit(e, k) && rest == if level <= 11 then SkipWs(k) else k
  }

  lemma NameTaken(u: string)
    ensures AllNameChars(u[..NameLength(u)])
  {
    if u != "" && IsNameChar(u[0]) {
      NameTaken(u[1..]);
      var n := NameLength(u);
      forall i | 0 <= i < n ensures IsNameChar(u[i]) { assert i > 0 ==> u[i] == u[1..][..n - 1][i - 1]; }
    }
  }

  lemma {:induction false} PrimaryTakes(s: string, env: Env) returns (e: Expr, k: string)
    requires Primary(s, env).Ok?
    ensures Took(13, s, e, k, Primary(s, env).rest)
    decreases |s|, 2
  {
    var ws := N.LeadSkipped(s);
    var t := SkipWs(s);
    if t[0] == '(' {
      ParenIs(s, t, env);
      e, k := ParenTakes(ws, t, env);
    } else if t[0] == '$' && At(t, 1, '(') && At(t, 2, '(') {
      NestedIs(s, t, env);
      var end := NestedEnd(t, 3, 1).value;
      e, k := NestedTakes(ws, t, end, t[3..end], env);
    } else if t[0] == '$' || IsAlpha(t[0]) || t[0] == '_' {
      var u := if t[0] == '$' then t[1..] else t;
      NameIs(s, t, u, env);
      e, k := NameTakes(ws, t, u);
    } else {
      var digits := N.NumeralTaken(t);
      e, k := Lit(ws, digits, Unsigned(t).0), Unsigned(t).1;
    }
  }

  lemma ParenIs(s: string, t: string, env: Env)
    requires t == SkipWs(s) && t != "" && t[0] == '('
    ensures var p := Level(0, t[1..], env);
            Primary(s, env) ==
              if p.Fail? then p
              else if At(SkipWs(p.rest), 0, ')') then Ok(p.v, SkipWs(p.rest)[1..]) else Fail(MissingParen)
  {
  }

  lemma NestedIs(s: string, t: string, env: Env)
    requires t == SkipWs(s) && At(t, 0, '$') && At(t, 1, '(') && At(t, 2, '(')
    ensures var end := NestedEnd(t, 3, 1);
            Primary(s, env) ==
              if end == None then Fail(UnterminatedNested)
              else Yield(Evaluate(Truncated(t[3..end.value]), env), t[end.value + 2..])
  {
  }

  lemma NameIs(s: string, t: string, u: string, env: Env)
    requires t == SkipWs(s) && t != "" && (t[0] == '$' || IsAlpha(t[0]) || t[0] == '_')
    requires !(t[0] == '$' && At(t, 1, '(') && At(t, 2, '(')) && u == if t[0] == '$' then t[1..] else t
    ensures Primary(s, env) == Ok(VarValue(env, u[..NameLength(u)]), u[NameLength(u)..])
  {
  }

  lemma NameTakes(ws: string, t: string, u: string) returns (e: Expr, k: string)
    requires AllSpace(ws) && t != "" && (t[0] == '$' || IsAlpha(t[0]) || t[0] == '_')
    requires u == if t[0] == '$' then t[1..] else t
    ensures Took(13, ws + t, e, k, u[NameLength(u)..])
  {
    var n, dollar := NameLength(u), t[0] == '$';
    NameTaken(u);
    assert u == u[..n] + u[n..] && t == (if dollar then "$" else "") + u;
    assert !dollar ==> n > 0 && u[..n][0] == t[0] && !IsDigit(t[0]);
    e, k := Name(ws, dollar, u[..n]), u[n..];
  }

  lemma ParenTakes(ws: string, t: string, env: Env) returns (e: Expr, k: string)
    requires AllSpace(ws) && t != "" && t[0] == '(' && Level(0, t[1..], env).Ok?
    requires At(SkipWs(Level(0, t[1..], env).rest), 0, ')')
    ensures Took(13, ws + t, e, k, SkipWs(Level(0, t[1..], env).rest)[1..])
    decreases |t|, 1
  {
    var a, k1 := LevelTakes(0, t[1..], env);
    SkipTwice(k1);
    var close := N.LeadSkipped(k1);
    k := SkipWs(k1)[1..];
    ParenTook(ws, t, a, k1, close, k);
    e := Paren(ws, a, close);
  }

  lemma ParenTook(ws: string, t: string, a: Expr, k1: string, close: string, k: string)
    requires t != "" && t[0] == '(' && t[1..] == Emit(a, k1) && k1 == close + ([')'] + k)
    ensures ws + t == Emit(Paren(ws, a, close), k)
  {
    assert t == ['('] + t[1..];
  }

  lemma NestedTakes(ws: string, t: string, end: nat, text: string, env: Env) returns (e: Expr, k: string)
    requires AllSpace(ws) && At(t, 0, '$') && At(t, 1, '(') && At(t, 2, '(') && NestedEnd(t, 3, 1) == Some(end)
    requires text == t[3..end] && Evaluate(Truncated(text), env).Val?
    ensures Took(13, ws + t, e, k, t[end + 2..])
    decreases |t|, 1
  {
    assert ClosesItself(text) && t[end] == ')' && t[end + 1] == ')' by { var m := ScanCloses(t, 3, 1); }
    var read := Truncated(text);
    var a, k1 := TextTakes(read, env);
    var cut, rest := text[|read|..], t[end + 2..];
    NestedTook(ws, t, a, k1, cut, text, rest, end);
    e, k := Nested(ws, a, k1, cut), rest;
  }

  lemma NestedTook(ws: string, t: string, a: Expr, k1: string, cut: string, text: string, rest: string, end: nat)
    requires At(t, 0, '$') && At(t, 1, '(') && At(t, 2, '(') && 3 <= end && end + 2 <= |t|
    requires t[end] == ')' && t[end + 1] == ')' && text == t[3..end] && rest == t[end + 2..]
    requires Truncated(text) == Emit(a, k1) && cut == text[|Emit(a, k1)|..]
    ensures text == Emit(a, k1) + cut && CutBehind(Emit(a, k1), cut)
    ensures ws + t == Emit(Nested(ws, a, k1, cut), rest)
  {
    assert text == Emit(a, k1) + cut;
    assert t == "$((" + (text + ("))" + rest));
  }

  /** A text that has a value is a written expression and white space. */
  lemma TextTakes(text: string, env: Env) returns (e: Expr, trail: string)
    requires Evaluate(text, env).Val?
    ensures Written(e) && text == Emit(e, trail) && AllSpace(trail)
    decreases |text|, 40
  {
    e, trail := LevelTakes(0, text, env);
    SkipTwice(trail);
    N.AllSkipped(trail);
  }

  lemma {:induction false} UnaryTakes(s: string, env: Env) returns (e: Expr, k: string)
    requires UnaryLevel(s, env).Ok?
    ensures Took(12, s, e, k, UnaryLevel(s, env).rest)
    decreases |s|, 4
  {
    var op := MatchUnary(SkipWs(s));
    if op == None {
      PrimaryShape(s, env);
      e, k := PrimaryTakes(s, env);
    } else {
      var ws := N.LeadSkipped(s);
      var t := SkipWs(s);
      assert t == [UnaryChar(op.value)] + t[1..];
      PrefixShape(ws, op.value, t[1..], env);
      var a;
      a, k := UnaryTakes(t[1..], env);
      e := Prefix(ws, op.value, a);
    }
  }

  lemma MatchedText(level: nat, t: string)
    requires MatchOp(level, t).Some?
    ensures var op := MatchOp(level, t).value; Rank(op) == level && t == Symbol(op) + t[|Symbol(op)|..]
  {
    var op := MatchOp(level, t).value;
    assert t[..|Symbol(op)|] == Symbol(op);
  }

  lemma {:induction false} PowerTakes(s: string, env: Env) returns (e: Expr, k: string)
    requires PowerLevel(s, env).Ok?
    ensures Took(11, s, e, k, PowerLevel(s, env).rest)
    decreases |s|, 6
  {
    var p := UnaryLevel(s, env);
    var t := SkipWs(p.rest);
    var a, k1 := UnaryTakes(s, env);
    if MatchOp(11, t) == None {
      e, k := a, k1;
    } else {
      var tail := t[2..];
      PowerGoesOn(s, p, t, tail, env);
      var b;
      b, k := PowerTakes(tail, env);
      e := PowerTook(s, a, k1, t, b, k);
    }
  }

  lemma PowerTook(s: string, a: Expr, k1: string, t: string, b: Expr, k: string) returns (e: Expr)
    requires Written(a) && LevelOf(a) >= 12 && s == Emit(a, k1) && t == SkipWs(k1) && MatchOp(11, t).Some?
    requires Written(b) && LevelOf(b) >= 11 && t[2..] == Emit(b, k)
    ensures Written(e) && LevelOf(e) >= 11 && s == Emit(e, k)
  {
    var gap := N.LeadSkipped(k1);
    MatchedText(11, t);
    e := Infix(a, gap, Pow, b);
  }

  lemma PowerGoesOn(s: string, p: Parse, t: string, tail: string, env: Env)
    requires p == UnaryLevel(s, env) && p.Ok? && t == SkipWs(p.rest) && MatchOp(11, t).Some? && tail == t[2..]
    ensures var q := PowerLevel(tail, env);
            PowerLevel(s, env) == if q.Fail? then q else Yield(ApplyBinary(Pow, p.v, q.v), q.rest)
  {
  }

  lemma {:induction false} LevelTakes(level: nat, s: string, env: Env) returns (e: Expr, k: string)
    requires level <= 13 && Level(level, s, env).Ok?
    ensures Took(level, s, e, k, Level(level, s, env).rest)
    decreases |s|, 2 * (14 - level) + 1
  {
    if level == 0 {
      assert Level(level, s, env) == Ternary(s, env);
      e, k := TernaryTakes(s, env);
    } else if level <= 10 {
      e, k := OperandTakes(level, s, env);
    } else if level == 11 {
      assert Level(level, s, env) == PowerLevel(s, env);
      e, k := PowerTakes(s, env);
    } else if level == 12 {
      assert Level(level, s, env) == UnaryLevel(s, env);
      e, k := UnaryTakes(s, env);
    } else {
      assert Level(level, s, env) == Primary(s, env);
      e, k := PrimaryTakes(s, env);
    }
  }

  lemma OperandTakes(level: nat, s: string, env: Env) returns (e: Expr, k: string)
    requires 1 <= level <= 10 && Level(level, s, env).Ok?
    ensures Took(level, s, e, k, Level(level, s, env).rest)
    decreases |s|, 2 * (14 - level)
  {
    LevelIsChain(level, s, env);
    var inner := level + 1;
    var p := Level(inner, s, env);
    var a, k1 := LevelTakes(inner, s, env);
    SkipTwice(k1);
    e, k := ChainTakes(level, p.v, p.rest, s, a, k1, env);
  }

  lemma {:induction false} ChainTakes(level: nat, v: int, rest: string, s: string, a: Expr, k1: string, env: Env)
    returns (e: Expr, k: string)
    requires 1 <= level <= 10 && Chain(level, v, rest, env).Ok? && SkipWs(rest) == SkipWs(k1) && |rest| <= |s|
    requires Written(a) && LevelOf(a) >= level && s == Emit(a, k1)
    ensures Took(level, s, e, k, Chain(level, v, rest, env).rest)
    decreases |rest|, 2 * (14 - level) - 1
  {
    var gap := N.LeadSkipped(k1);
    var t := SkipWs(k1);
    match MatchOp(level, t)
    case None => e, k := a, k1;
    case Some(op) =>
      MatchedText(level, t);
      var tail, inner := t[|Symbol(op)|..], level + 1;
      var p := Level(inner, tail, env);
      var b, k2 := LevelTakes(inner, tail, env);
      SkipTwice(k2);
      e, k := ChainTakes(level, ApplyBinary(op, v, p.v).v, p.rest, s, Infix(a, gap, op, b), k2, env);
  }

  lemma {:induction false} TernaryTakes(s: string, env: Env) returns (e: Expr, k: string)
    requires Ternary(s, env).Ok?
    ensures Took(0, s, e, k, Ternary(s, env).rest)
    decreases |s|, 28
  {
    var c, k1 := LevelTakes(1, s, env);
    SkipTwice(k1);
    var x, t := Level(1, s, env).v, SkipWs(k1);
    assert Ternary(s, env) == Branches(x, t, env);
    if At(t, 0, '?') {
      e, k := BranchesTake(x, t, s, c, k1, env);
    } else {
      e, k := c, k1;
    }
  }

  lemma BranchesTake(x: int, t: string, s: string, c: Expr, k1: string, env: Env) returns (e: Expr, k: string)
    requires At(t, 0, '?') && t == SkipWs(k1) && |t| <= |s| && Branches(x, t, env).Ok?
    requires Written(c) && LevelOf(c) >= 1 && s == Emit(c, k1)
    ensures Took(0, s, e, k, Branches(x, t, env).rest)
    decreases |t|, 0
  {
    var a, k2 := LevelTakes(1, t[1..], env);
    SkipTwice(k2);
    var u := SkipWs(k2);
    var no := u[1..];
    var b;
    b, k := LevelTakes(1, no, env);
    e := CondWritten(s, c, k1, t, a, k2, u, b, k);
  }

  lemma CondWritten(
      s: string, c: Expr, k1: string, t: string, a: Expr, k2: string, u: string, b: Expr, k: string) returns (e: Expr)
    requires Written(c) && LevelOf(c) >= 1 && s == Emit(c, k1) && t == SkipWs(k1) && At(t, 0, '?')
    requires Written(a) && LevelOf(a) >= 1 && t[1..] == Emit(a, k2) && u == SkipWs(k2) && At(u, 0, ':')
    requires Written(b) && LevelOf(b) >= 1 && u[1..] == Emit(b, k)
    ensures Written(e) && s == Emit(e, k)
  {
    var gap := N.LeadSkipped(k1);
    var gap' := N.LeadSkipped(k2);
    CondTook(k1, gap, t, a, k2, gap', u);
    e := Cond(c, gap, a, gap', b);
  }

  lemma CondTook(k1: string, gap: string, t: string, a: Expr, k2: string, gap': string, u: string)
    requires k1 == gap + t && At(t, 0, '?') && t[1..] == Emit(a, k2) && k2 == gap' + u && At(u, 0, ':')
    ensures k1 == gap + (['?'] + Emit(a, gap' + ([':'] + u[1..])))
  {
    assert t == ['?'] + t[1..] && u == [':'] + u[1..];
  }

  /**
   * The evaluator gives a value for exactly the texts that are a written expression and white
   * space behind it, and it is the one meaning of the expression with its names cut to the buffer.
   */
  lemma EvaluatesIff(text: string, env: Env, v: int)
    ensures Evaluate(text, env) == Val(v) <==>
      exists e, trail ::
        Written(e) && AllSpace(trail) && text == Emit(e, trail) && Means(CutNames(TreeOf(e)), env, Val(v))
  {
    if Evaluate(text, env) == Val(v) {
      var e, trail := TextTakes(text, env);
      EvaluateWritten(e, trail, env);
      assert Means(CutNames(TreeOf(e)), env, Val(v));
    }
    forall e, trail | Written(e) && AllSpace(trail) && text == Emit(e, trail) && Means(CutNames(TreeOf(e)), env, Val(v))
      ensures Evaluate(text, env) == Val(v)
    {
      EvaluateWritten(e, trail, env);
    }
  }
}
