/**
The tokens of a line, told from the line and the tokens before: where each one ends, and what it
is. The lexer gives a token stream exactly if it is this one and within the limits.
*/
module LexerGrammar {
  import opened Text
  import opened Lexer
  import opened LexerLaws
  import opened LexerScans

  // ---------------------------------------------------------------- words

  /** One unit is one round of the word scanner. */
  lemma UnitIs(line: string, s: Scan)
    requires Roomy(s) && s.index < |line|
    ensures Ends(line, s, Unit(line, s.index), WordPiece(line, s))
  {
    var i := s.index;
    OpensAt(line, i);
    CharAt(line, i);
    if At(line, i, "$((") {
      var next := i + 3;
      ExpansionIs(line, s, next);
    } else if At(line, i, "$(") {
      var next := i + 2;
      SubstitutionIs(line, s, next);
    } else if line[i] == '\\' {
      QuotedEscape(line, s, i + 2);
    } else if IsQuote(line[i]) {
      var next := i + 1;
      PutTo(line, s, [line[i]], "", next);
      if |s.raw| + 1 < MAX_TOKEN {
        QuotedIs(line, To(line, s, next, ""), line[i]);
        EndsOn(line, s, next, "", Quoted(line, next, line[i]), WordPiece(line, s));
        NoPrefix(Quoted(line, next, line[i]));
      }
    } else {
      PutTo(line, s, [line[i]], [line[i]], i + 1);
    }
  }

  lemma NoPrefix(span: Option<Span>)
    ensures Prefixed("", span) == span
  {
    if span.Some? { assert "" + span.value.text == span.value.text; }
  }

  lemma ExpansionIs(line: string, s: Scan, next: nat)
    requires Roomy(s) && At(line, s.index, "$((") && next == s.index + 3
    ensures Ends(line, s, Unit(line, s.index), WordPiece(line, s))
  {
    OpensAt(line, s.index);
    PutTo(line, s, "$((", "$((", next);
    if |s.raw| + 3 < MAX_TOKEN {
      var s', end := To(line, s, next, "$(("), Expression(line, next);
      assert s' == Raw(line, s, next);
      ExpressionIs(line, s', 1, 0);
      if end.Some? { RawTwice(line, s, next, end.value); }
    }
  }

  lemma SubstitutionIs(line: string, s: Scan, next: nat)
    requires Roomy(s) && At(line, s.index, "$(") && !At(line, s.index, "$((") && next == s.index + 2
    ensures Ends(line, s, Unit(line, s.index), WordPiece(line, s))
  {
    OpensAt(line, s.index);
    PutTo(line, s, "$(", "$(", next);
    if |s.raw| + 2 < MAX_TOKEN {
      CommandsIs(line, To(line, s, next, "$("), 1);
      EndsOn(line, s, next, "$(", Commands(line, next), WordPiece(line, s));
    }
  }

  /** Some operator begins here. */
  ghost predicate OperatorHere(line: string, i: nat) { exists k :: Stands(line, i, Spelling(k)) }

  /** A descriptor and its redirection begin here. */
  ghost predicate FdHere(line: string, i: nat) { exists n: nat, k :: DigitsAndOperator(line, i, n, k) }

  predicate DigitsAndOperator(line: string, i: nat, n: nat, k: Kind) {
    i + n <= |line| && AllDigits(line[i..i + n]) && Stands(line, i + n, FdSpelling(k))
  }

  /** A blank or an operator ends a word; inside `[[ ]]` there are other operators. */
  ghost predicate WordStops(line: string, i: nat, conditional: bool) {
    i < |line| &&
    (IsSpace(line[i]) ||
     if conditional then
       At(line, i, "]]") || At(line, i, "&&") || At(line, i, "||") || line[i] == '!' || line[i] == '(' || line[i] == ')'
     else OperatorHere(line, i) || FdHere(line, i))
  }

  /** The units of a word up to the first place where it stops. */
  ghost function Word(line: string, i: nat, conditional: bool): (r: Option<Span>)
    ensures r.Some? ==> i <= r.value.end && (i <= |line| ==> r.value.end <= |line|)
    decreases |line| - i
  {
    if i >= |line| || WordStops(line, i, conditional) then Some(Span(i, ""))
    else
      match Unit(line, i)
      case None => None
      case Some(u) => Prefixed(u.text, Word(line, u.end, conditional))
  }

  lemma {:induction false} DigitsEndIs(line: string, i: nat, e: nat)
    requires i <= e <= |line| && forall k :: i <= k < e ==> IsDigit(line[k])
    requires e < |line| ==> !IsDigit(line[e])
    ensures DigitsEnd(line, i) == e
    decreases e - i
  {
    if i < e { DigitsEndIs(line, i + 1, e); }
  }

  /** The digits in front of a redirection are all there are. */
  lemma FdDigits(line: string, i: nat, n: nat, k: Kind)
    requires DigitsAndOperator(line, i, n, k)
    ensures n > 0 && IsDigit(line[i]) && DigitsEnd(line, i + 1) == i + n && FdRedirection(line, i).Some?
  {
    var e := i + n;
    StandsFirst(line, e, FdSpelling(k).value);
    assert forall j :: i <= j < e ==> line[j] == line[i..e][j - i];
    DigitsEndIs(line, i + 1, e);
  }

  lemma FdIs(line: string, i: nat)
    requires i < |line|
    ensures FdHere(line, i) <==> FdRedirection(line, i).Some?
  {
    if FdHere(line, i) {
      var n: nat, k :| DigitsAndOperator(line, i, n, k);
      FdDigits(line, i, n, k);
    }
    if FdRedirection(line, i).Some? {
      FdSpelled(line, i);
      var e, k := DigitsEnd(line, i + 1), FdRedirection(line, i).value.0;
      assert forall j :: i <= j < e ==> IsDigit(line[j]);
      assert DigitsAndOperator(line, i, e - i, k);
    }
  }

  /** The first character that an operator can have. */
  predicate Opening(line: string, i: nat) {
    i < |line| &&
    (line[i] == '|' || line[i] == '&' || line[i] == ';' || line[i] == '<' || line[i] == '>' || line[i] == '('
     || line[i] == ')' || line[i] == ',' || At(line, i, "->"))
  }

  lemma OperatorIs(line: string, i: nat)
    requires i < |line|
    ensures OperatorHere(line, i) <==> Opening(line, i)
  {
    if OperatorHere(line, i) {
      var k :| Stands(line, i, Spelling(k));
      StandsFirst(line, i, Spelling(k).value);
      if k == Arrow { assert At(line, i, "->"); }
    }
    if Opening(line, i) { OperatorOpens(line, i); }
  }

  lemma OperatorOpens(line: string, i: nat)
    requires Opening(line, i)
    ensures OperatorHere(line, i)
  {
    CharAt(line, i);
    var k := if line[i] == '|' then ShellPipe else if line[i] == '&' then Background
      else if line[i] == ';' then Sequence else if line[i] == '<' then RedirectIn
      else if line[i] == '>' then RedirectOut else if line[i] == '(' then Lparen
      else if line[i] == ')' then Rparen else if line[i] == ',' then Comma else Arrow;
    assert Stands(line, i, Spelling(k));
  }

  lemma PairAt(line: string, i: nat, c: char, d: char)
    requires i < |line| && c != NUL && d != NUL
    ensures At(line, i, [c, d]) <==> Peek(line, i) == c && Peek(line, i + 1) == d
  {
    if At(line, i, [c, d]) { StandsFirst(line, i, [c, d]); }
    if Peek(line, i) == c && Peek(line, i + 1) == d { AtPeek(line, i, [c, d]); }
  }

  lemma StopsIs(line: string, i: nat, conditional: bool)
    requires i < |line|
    ensures WordStops(line, i, conditional) <==> StopsWord(line, i, conditional)
  {
    FdIs(line, i);
    OperatorIs(line, i);
    PairAt(line, i, '-', '>');
    PairAt(line, i, ']', ']');
    PairAt(line, i, '&', '&');
    PairAt(line, i, '|', '|');
    assert "->" == ['-', '>'] && "]]" == [']', ']'] && "&&" == ['&', '&'] && "||" == ['|', '|'];
  }

  /** The word scanner stops where the word does. */
  lemma {:induction false} WordIs(line: string, s: Scan, any: bool, conditional: bool)
    requires Roomy(s) && s.index <= |line|
    requires any || (s.index < |line| && !WordStops(line, s.index, conditional))
    ensures Ends(line, s, Word(line, s.index, conditional), WordRest(line, s, any, conditional))
    decreases |line| - s.index
  {
    var i := s.index;
    if i < |line| {
      StopsIs(line, i, conditional);
      OpensAt(line, i);
    }
    if i >= |line| || WordStops(line, i, conditional) {
      ToHere(line, s);
    } else {
      UnitIs(line, s);
      var u := Unit(line, i);
      if Reached(s, u) {
        var s', j := To(line, s, u.value.end, u.value.text), u.value.end;
        WordIs(line, s', true, conditional);
        EndsOn(line, s, j, u.value.text, Word(line, j, conditional), WordRest(line, s', true, conditional));
      }
    }
  }

  // ---------------------------------------------------------------- tokens

  /** In command position and not waiting for the target of a redirection, `[[` opens a conditional. */
  predicate Opener(line: string, i: nat, m: Mode) {
    m.wordAllowed && !m.pending && At(line, i, "[[")
    && (i + 2 == |line| || IsSpace(line[i + 2]) || line[i + 2] == '!' || line[i + 2] == '(')
  }

  /** What stands for itself inside `[[ ]]`. */
  function BracketOperator(line: string, i: nat): (text: string)
    requires i < |line|
  {
    if At(line, i, "]]") || At(line, i, "&&") || At(line, i, "||") then line[i..i + 2]
    else if line[i] == '!' || line[i] == '(' || line[i] == ')' then [line[i]] else ""
  }

  predicate ProcessHere(line: string, i: nat) { At(line, i, "<(") || At(line, i, ">(") }

  predicate IsSubstitution(line: string, t: Token)
    requires t.position < |line|
  {
    var end := Processes(line, t.position + 2);
    t.kind == (if At(line, t.position, "<(") then ProcSubstIn else ProcSubstOut)
    && end.Some? && t.raw == line[t.position..end.value] && t.text == t.raw
  }

  ghost predicate IsWord(line: string, t: Token, conditional: bool) {
    var w := Word(line, t.position, conditional);
    t.kind == Kind.Word && w.Some? && t.position <= |line| && t.raw == line[t.position..w.value.end]
    && t.text == w.value.text
  }

  predicate Itself(t: Token, raw: string) { t.kind == Kind.Word && t.raw == raw && t.text == raw }

  /** The token that starts here: the first of these that applies. */
  ghost predicate IsToken(line: string, m: Mode, t: Token)
    requires t.position < |line|
  {
    var i := t.position;
    0 < |t.raw| < 256 && At(line, i, t.raw) &&
    if m.inBrackets then
      if ProcessHere(line, i) then IsSubstitution(line, t)
      else if BracketOperator(line, i) != "" then Itself(t, BracketOperator(line, i))
      else IsWord(line, t, true)
    else if Opener(line, i, m) then Itself(t, "[[")
    else if FdHere(line, i) then t.text == t.raw && exists n: nat :: DigitsThenOperator(line, t, n)
    else if ProcessHere(line, i) then IsSubstitution(line, t)
    else if OperatorHere(line, i) then t.text == t.raw && LongestOperator(line, i, t.kind, t.raw)
    else IsWord(line, t, false)
  }

  /** Behind these a command begins. */
  predicate StartsCommand(k: Kind) {
    k == ObjectPipe || k == OrIf || k == ShellPipe || k == AndIf || k == Background || k == Sequence || k == Lparen
  }

  predicate IsRedirection(k: Kind) {
    k == RedirectIn || k == RedirectOut || k == RedirectAppend || k == HereString || k == Heredoc || k == HeredocStrip
    || k == RedirectFdIn || k == RedirectFdOut || k == RedirectFdAppend || k == RedirectDupIn || k == RedirectDupOut
  }

  /** Inside a conditional or not, in command position or not, waiting for a target or not, after the token. */
  function After(line: string, m: Mode, t: Token): (m': Mode)
    requires t.position < |line|
  {
    if m.inBrackets then if t.raw == "]]" then Mode(false, false, false) else m
    else if Opener(line, t.position, m) then Mode(true, false, false)
    else if StartsCommand(t.kind) then Mode(false, true, false)
    else if t.kind == Rparen then Mode(false, false, false)
    else if IsRedirection(t.kind) then m.(pending := true)
    else if t.kind == Arrow || t.kind == Comma then m
    else if t.kind == Kind.Word && m.pending then m.(pending := false)
    else m.(pending := false, wordAllowed := false)
  }

  lemma SameSpelling(k: Kind, k': Kind)
    requires Spelling(k).Some? && Spelling(k) == Spelling(k')
    ensures k == k'
  {
  }

  lemma OneLongest(line: string, i: nat, k: Kind, raw: string, k': Kind, raw': string)
    requires LongestOperator(line, i, k, raw) && LongestOperator(line, i, k', raw')
    ensures k == k' && raw == raw'
  {
    assert Stands(line, i, Spelling(k)) && Stands(line, i, Spelling(k'));
    SameSpelling(k, k');
  }

  lemma OneFdToken(line: string, t: Token, n: nat)
    requires t.position < |line| && At(line, t.position, t.raw) && DigitsThenOperator(line, t, n)
    requires FdRedirection(line, t.position).Some?
    ensures var (k, w) := FdRedirection(line, t.position).value; t.kind == k && |t.raw| == w
  {
    var i := t.position;
    var e := i + n;
    assert line[i..e] == t.raw[..n];
    assert DigitsAndOperator(line, i, n, t.kind);
    FdDigits(line, i, n, t.kind);
    FdSpelled(line, i);
    var (k, w) := FdRedirection(line, i).value;
    var last := i + w;
    assert DigitsEnd(line, i + 1) == e;
    OneFdLongest(line, e, k, line[e..last], t.kind, t.raw[n..]);
  }

  lemma OneFdLongest(line: string, i: nat, k: Kind, raw: string, k': Kind, raw': string)
    requires LongestFdOperator(line, i, k, raw) && LongestFdOperator(line, i, k', raw')
    ensures k == k' && raw == raw'
  {
    assert Stands(line, i, FdSpelling(k)) && Stands(line, i, FdSpelling(k'));
    SameFdSpelling(k, k');
  }

  lemma SameFdSpelling(k: Kind, k': Kind)
    requires FdSpelling(k).Some? && FdSpelling(k) == FdSpelling(k')
    ensures k == k'
  {
  }

  /** What the lexer finds is `t`. */
  predicate Finds(line: string, m: Mode, t: Token)
    requires t.position < |line|
  {
    var r := NextToken(line, t.position, m);
    r.Found? && r.token == t
  }

  lemma FixedFinds(line: string, m: Mode, t: Token, kind: Kind, text: string)
    requires t.position < |line| && At(line, t.position, text)
    requires var d := Decide(line, t.position, m); d.Fixed? && d.kind == kind && d.text == text
    ensures Finds(line, m, t) <==> t.kind == kind && t.raw == text && t.text == text
  {
  }

  lemma WordFinds(line: string, m: Mode, t: Token, conditional: bool)
    requires t.position < |line| && Decide(line, t.position, m).WordHere? && conditional == m.inBrackets
    requires !WordStops(line, t.position, conditional)
    ensures Finds(line, m, t) <==> IsWord(line, t, conditional) && 0 < |t.raw| < 256
  {
    var i := t.position;
    var s := Scan(i, "", "");
    WordIs(line, s, false, conditional);
    var w := Word(line, i, conditional);
    WordMoves(line, i, conditional);
    if Reached(s, w) {
      assert "" + line[i..w.value.end] == line[i..w.value.end] && "" + w.value.text == w.value.text;
    }
  }

  lemma WordMoves(line: string, i: nat, conditional: bool)
    requires i < |line| && !WordStops(line, i, conditional)
    ensures var w := Word(line, i, conditional); w.Some? ==> i < w.value.end <= |line|
  {
  }

  lemma ProcessFinds(line: string, m: Mode, t: Token)
    requires t.position < |line| && ProcessHere(line, t.position)
    requires var d := Decide(line, t.position, m);
             d.Process? && d.kind == if At(line, t.position, "<(") then ProcSubstIn else ProcSubstOut
    ensures Finds(line, m, t) <==> IsSubstitution(line, t) && 0 < |t.raw| < 256
  {
    var i := t.position;
    var s := Scan(i + 2, [Peek(line, i), '('], "");
    assert s.raw == line[i..i + 2];
    ProcessesAre(line, s, 1, 0);
    var end := Processes(line, i + 2);
    if Room(s, end) { assert s.raw + line[i + 2..end.value] == line[i..end.value]; }
  }

  lemma ProcessIs(line: string, i: nat)
    requires i < |line|
    ensures ProcessHere(line, i) <==> OpensProcess(line, i)
    ensures At(line, i, "<(") <==> OpensProcess(line, i) && Peek(line, i) == '<'
  {
    PairAt(line, i, '<', '(');
    PairAt(line, i, '>', '(');
    assert "<(" == ['<', '('] && ">(" == ['>', '('];
  }

  lemma BracketTokenIs(line: string, m: Mode, t: Token)
    requires t.position < |line| && !IsSpace(line[t.position]) && m.inBrackets
    ensures Finds(line, m, t) <==> IsToken(line, m, t)
  {
    var i := t.position;
    ProcessIs(line, i);
    BracketsAre(line, i);
    if ProcessHere(line, i) {
      ProcessFinds(line, m, t);
    } else if BracketOperator(line, i) != "" {
      FixedFinds(line, m, t, Kind.Word, BracketOperator(line, i));
    } else {
      WordFinds(line, m, t, true);
    }
  }

  lemma BracketsAre(line: string, i: nat)
    requires i < |line|
    ensures Twice(line, i, ']') <==> At(line, i, "]]")
    ensures Twice(line, i, '&') <==> At(line, i, "&&")
    ensures Twice(line, i, '|') <==> At(line, i, "||")
    ensures Twice(line, i, '[') <==> At(line, i, "[[")
    ensures At(line, i, BracketOperator(line, i))
    ensures At(line, i, "]]") ==> BracketOperator(line, i) == "]]"
    ensures At(line, i, "&&") ==> BracketOperator(line, i) == "&&"
    ensures At(line, i, "||") ==> BracketOperator(line, i) == "||"
  {
    PairAt(line, i, ']', ']');
    PairAt(line, i, '&', '&');
    PairAt(line, i, '|', '|');
    PairAt(line, i, '[', '[');
    assert "]]" == [']', ']'] && "&&" == ['&', '&'] && "||" == ['|', '|'] && "[[" == ['[', '['];
    CharAt(line, i);
  }

  lemma FdTokenIs(line: string, m: Mode, t: Token)
    requires t.position < |line| && !m.inBrackets && !OpensConditional(line, t.position, m)
    requires FdRedirection(line, t.position).Some?
    ensures Finds(line, m, t) <==>
            0 < |t.raw| < 256 && At(line, t.position, t.raw) && t.text == t.raw
            && exists n: nat :: DigitsThenOperator(line, t, n)
  {
    var i := t.position;
    if Finds(line, m, t) { FdRedirectionIsLongest(line, i, t); }
    if At(line, i, t.raw) && exists n: nat :: DigitsThenOperator(line, t, n) {
      var n: nat :| DigitsThenOperator(line, t, n);
      OneFdToken(line, t, n);
    }
  }

  lemma OperatorTokenIs(line: string, m: Mode, t: Token)
    requires t.position < |line| && !m.inBrackets && !OpensConditional(line, t.position, m)
    requires FdRedirection(line, t.position).None? && !OpensProcess(line, t.position) && OperatorHere(line, t.position)
    ensures Finds(line, m, t) <==>
            0 < |t.raw| < 256 && t.text == t.raw && LongestOperator(line, t.position, t.kind, t.raw)
  {
    var i := t.position;
    OperatorIs(line, i);
    PairAt(line, i, '-', '>');
    assert "->" == ['-', '>'];
    var (k, raw) := FixedOperator(line, i).value;
    FixedOperatorIsLongest(line, i);
    FixedOperatorIsSlice(line, i);
    FixedFinds(line, m, t, k, raw);
    if LongestOperator(line, i, t.kind, t.raw) { OneLongest(line, i, k, raw, t.kind, t.raw); }
  }

  lemma OutsideTokenIs(line: string, m: Mode, t: Token)
    requires t.position < |line| && !IsSpace(line[t.position]) && !m.inBrackets
    ensures Finds(line, m, t) <==> IsToken(line, m, t)
  {
    var i := t.position;
    BracketsAre(line, i);
    FdIs(line, i);
    ProcessIs(line, i);
    if Opener(line, i, m) {
      FixedFinds(line, m, t, Kind.Word, "[[");
    } else if FdHere(line, i) {
      FdTokenIs(line, m, t);
    } else if ProcessHere(line, i) {
      ProcessFinds(line, m, t);
    } else if OperatorHere(line, i) {
      OperatorTokenIs(line, m, t);
    } else {
      NoOperator(line, i);
      WordFinds(line, m, t, false);
    }
  }

  lemma NoOperator(line: string, i: nat)
    requires i < |line| && !OperatorHere(line, i) && FdRedirection(line, i).None?
    ensures FixedOperator(line, i).None?
  {
    OperatorIs(line, i);
    PairAt(line, i, '-', '>');
    assert "->" == ['-', '>'];
  }

  /** The lexer finds a token exactly if it is the one that starts here, and goes on behind it. */
  lemma TokenIs(line: string, m: Mode, t: Token)
    requires t.position < |line| && !IsSpace(line[t.position])
    ensures Finds(line, m, t) <==> IsToken(line, m, t)
    ensures IsToken(line, m, t) ==>
      var r := NextToken(line, t.position, m); r.end == t.position + |t.raw| && r.mode == After(line, m, t)
  {
    if m.inBrackets { BracketTokenIs(line, m, t); } else { OutsideTokenIs(line, m, t); }
    if IsToken(line, m, t) {
      FoundIsSlice(line, t.position, m);
      AfterIs(line, m, t);
    }
  }

  lemma AfterIs(line: string, m: Mode, t: Token)
    requires t.position < |line| && !IsSpace(line[t.position]) && IsToken(line, m, t) && Finds(line, m, t)
    ensures NextToken(line, t.position, m).mode == After(line, m, t)
  {
    var i := t.position;
    BracketsAre(line, i);
    ProcessIs(line, i);
    FdIs(line, i);
    if m.inBrackets {
      AfterBracket(line, m, t);
    } else if Opener(line, i, m) {
    } else if FdHere(line, i) {
      AfterFd(line, m, t);
    } else if !ProcessHere(line, i) && OperatorHere(line, i) {
      AfterOperatorIs(line, m, t);
    } else if !ProcessHere(line, i) {
      NoOperator(line, i);
    }
  }

  lemma AfterBracket(line: string, m: Mode, t: Token)
    requires t.position < |line| && !IsSpace(line[t.position]) && m.inBrackets && At(line, t.position, t.raw)
    requires Finds(line, m, t)
    ensures NextToken(line, t.position, m).mode == After(line, m, t)
  {
    BracketsAre(line, t.position);
    ProcessIs(line, t.position);
    if t.raw != "" { StandsFirst(line, t.position, t.raw); }
  }

  lemma AfterFd(line: string, m: Mode, t: Token)
    requires t.position < |line| && !m.inBrackets && !OpensConditional(line, t.position, m)
    requires !Opener(line, t.position, m) && FdRedirection(line, t.position).Some? && Finds(line, m, t)
    ensures NextToken(line, t.position, m).mode == After(line, m, t)
  {
  }

  lemma AfterOperatorIs(line: string, m: Mode, t: Token)
    requires t.position < |line| && !m.inBrackets && !OpensConditional(line, t.position, m)
    requires !Opener(line, t.position, m) && FdRedirection(line, t.position).None? && !OpensProcess(line, t.position)
    requires OperatorHere(line, t.position) && Finds(line, m, t)
    ensures NextToken(line, t.position, m).mode == After(line, m, t)
  {
    OperatorIs(line, t.position);
    PairAt(line, t.position, '-', '>');
    assert "->" == ['-', '>'];
    FixedOperatorIsSpelled(line, t.position);
    assert NextToken(line, t.position, m).mode == AfterOperator(t.kind, m);
    ModeAfter(line, m, t);
  }

  lemma ModeAfter(line: string, m: Mode, t: Token)
    requires t.position < |line| && !m.inBrackets && !Opener(line, t.position, m) && Spelling(t.kind).Some?
    ensures After(line, m, t) == AfterOperator(t.kind, m)
  {
  }

  // ---------------------------------------------------------------- lines

  /** The tokens from `i` on, with blanks between them and the end-of-line token behind them. */
  ghost predicate Tokenised(line: string, i: nat, m: Mode, ts: seq<Token>)
    decreases |line| - i, |ts|
  {
    if i >= |line| then ts == [Token(Eof, "", "", |line|)] && !m.inBrackets
    else if IsSpace(line[i]) then Tokenised(line, i + 1, m, ts)
    else
      |ts| > 0 && ts[0].position == i && IsToken(line, m, ts[0])
      && Tokenised(line, i + |ts[0].raw|, After(line, m, ts[0]), ts[1..])
  }

  lemma {:induction false} LexRestExtends(line: string, i: nat, m: Mode, before: seq<Token>)
    ensures var r := LexRest(line, i, m, before); r.Tokens? ==> before < r.tokens
    decreases |line| - i
  {
    if i < |line| {
      if IsSpace(line[i]) {
        LexRestExtends(line, i + 1, m, before);
      } else {
        TokenRound(line, i, m, before);
        var next := NextToken(line, i, m);
        if next.Found? && |before| < MAX_TOKENS { LexRestExtends(line, next.end, next.mode, before + [next.token]); }
      }
    }
  }

  lemma {:induction false} LexRestIs(line: string, i: nat, m: Mode, before: seq<Token>, ts: seq<Token>)
    requires |before| <= 128
    ensures LexRest(line, i, m, before) == Tokens(before + ts) <==>
            Tokenised(line, i, m, ts) && |before| + |ts| <= 128
    decreases |line| - i
  {
    if i >= |line| {
      assert before + ts == before + [Token(Eof, "", "", |line|)] ==> ts == [Token(Eof, "", "", |line|)] by {
        assert ts == (before + ts)[|before|..];
        assert [Token(Eof, "", "", |line|)] == (before + [Token(Eof, "", "", |line|)])[|before|..];
      }
    } else if IsSpace(line[i]) {
      var next := i + 1;
      BlankRound(line, i, m, before, next);
      LexRestIs(line, next, m, before, ts);
    } else {
      LexTokenIs(line, i, m, before, ts);
    }
  }

  lemma {:induction false} LexTokenIs(line: string, i: nat, m: Mode, before: seq<Token>, ts: seq<Token>)
    requires |before| <= 128 && i < |line| && !IsSpace(line[i])
    ensures LexRest(line, i, m, before) == Tokens(before + ts) <==>
            Tokenised(line, i, m, ts) && |before| + |ts| <= 128
    decreases |line| - i, 0
  {
    TokenRound(line, i, m, before);
    TokenisedStep(line, i, m, ts);
    var next := NextToken(line, i, m);
    if next.Found? && |before| < 128 {
      var t, end, m' := next.token, next.end, next.mode;
      if ts != [] && ts[0] == t { LexRestIs(line, end, m', before + [t], ts[1..]); }
      LexRestExtends(line, end, m', before + [t]);
      OneToken(before, ts, t, LexRest(line, end, m', before + [t]), ts != [] && Tokenised(line, end, m', ts[1..]));
    }
  }

  /** The tokens of the rest begin with the one that the lexer finds. */
  lemma TokenisedStep(line: string, i: nat, m: Mode, ts: seq<Token>)
    requires i < |line| && !IsSpace(line[i])
    ensures var next := NextToken(line, i, m);
            Tokenised(line, i, m, ts) <==>
            next.Found? && ts != [] && ts[0] == next.token && Tokenised(line, next.end, next.mode, ts[1..])
  {
    if ts != [] {
      var t, next := ts[0], NextToken(line, i, m);
      TokenHere(line, i, m, t);
      if next.Found? {
        TokenisedFirst(line, i, m, ts, t, ts[1..], next.end, next.mode);
      } else {
        TokenisedFirst(line, i, m, ts, t, ts[1..], i, m);
      }
    }
  }

  lemma TokenisedFirst(
      line: string, i: nat, m: Mode, ts: seq<Token>, t: Token, rest: seq<Token>, end: nat, m': Mode)
    requires i < |line| && !IsSpace(line[i]) && ts != [] && t == ts[0] && rest == ts[1..]
    ensures Tokenised(line, i, m, ts) ==> t.position == i && IsToken(line, m, t)
    ensures t.position == i && IsToken(line, m, t) && end == i + |t.raw| && m' == After(line, m, t) ==>
            (Tokenised(line, i, m, ts) <==> Tokenised(line, end, m', rest))
  {
    TokenisedUnfolds(line, i, m, ts, t, rest);
    if t.position == i && end == i + |t.raw| && m' == After(line, m, t) {
      assert Tokenised(line, i + |t.raw|, After(line, m, t), rest) == Tokenised(line, end, m', rest);
    }
  }

  lemma TokenisedUnfolds(line: string, i: nat, m: Mode, ts: seq<Token>, t: Token, rest: seq<Token>)
    requires i < |line| && !IsSpace(line[i]) && ts != [] && t == ts[0] && rest == ts[1..]
    ensures Tokenised(line, i, m, ts) <==>
            t.position == i && IsToken(line, m, t) && Tokenised(line, i + |t.raw|, After(line, m, t), rest)
  {
  }

  lemma TokenHere(line: string, i: nat, m: Mode, t: Token)
    requires i < |line| && !IsSpace(line[i])
    ensures var next := NextToken(line, i, m);
            (t.position == i && IsToken(line, m, t) <==> next.Found? && next.token == t)
            && (next.Found? && next.token == t ==> next.end == i + |t.raw| && next.mode == After(line, m, t))
  {
    FoundIsSlice(line, i, m);
    if t.position == i { TokenIs(line, m, t); }
  }

  /** One token and the tokens behind it. */
  lemma OneToken(before: seq<Token>, ts: seq<Token>, t: Token, r: Lexed, rest: bool)
    requires r.Tokens? ==> before + [t] < r.tokens
    requires ts != [] && ts[0] == t ==>
      (r == Tokens((before + [t]) + ts[1..]) <==> rest && |before + [t]| + |ts[1..]| <= 128)
    ensures r == Tokens(before + ts) <==> ts != [] && ts[0] == t && rest && |before| + |ts| <= 128
  {
    if r == Tokens(before + ts) { assert (before + [t])[|before|] == (before + ts)[|before|]; }
    if ts != [] && ts[0] == t { assert (before + [t]) + ts[1..] == before + ts; }
  }

  /** Lexing a line gives these tokens exactly if they are its tokens and no more than 128. */
  lemma LexLineIff(line: string, ts: seq<Token>)
    ensures LexLine(line) == Tokens(ts) <==> Tokenised(line, 0, Mode(false, true, false), ts) && |ts| <= 128
  {
    LexRestIs(line, 0, START, [], ts);
    assert [] + ts == ts;
  }
}
