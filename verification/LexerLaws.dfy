/** What the token stream says about the line: nothing is lost, and operators are the longest ones. */
module LexerLaws {
  import opened Text
  import opened Lexer

  // ---------------------------------------------------------------- scans copy the line

  predicate At(line: string, i: nat, t: string) {
    i + |t| <= |line| && line[i..i + |t|] == t
  }

  /** The raw buffer is the part of the line scanned so far, and the cooked text is no longer. */
  predicate Faithful(line: string, start: nat, s: Scan) {
    start <= s.index <= |line| && s.raw == line[start..s.index] && |s.cooked| <= |s.raw| < MAX_TOKEN
  }

  predicate KeepsFaith(line: string, start: nat, r: Scanned) {
    r.Ok? ==> Faithful(line, start, r.scan)
  }

  lemma PutFaithful(line: string, start: nat, s: Scan, raw: string, cooked: string)
    requires Faithful(line, start, s) && At(line, s.index, raw) && |cooked| <= |raw|
    ensures KeepsFaith(line, start, Put(s, raw, cooked))
  {
    assert line[start..s.index] + line[s.index..s.index + |raw|] == line[start..s.index + |raw|];
  }

  lemma EscapedFaithful(line: string, start: nat, s: Scan, keep: bool)
    requires Faithful(line, start, s) && At(line, s.index, "\\")
    ensures KeepsFaith(line, start, PutEscaped(line, s, keep))
  {
    var cooked := if keep then "\\" else "";
    PutFaithful(line, start, s, "\\", cooked);
    var first := Put(s, "\\", cooked);
    if first.Ok? && s.index + 1 < |line| {
      assert At(line, s.index + 1, [line[s.index + 1]]);
      PutFaithful(line, start, first.scan, [line[s.index + 1]], [line[s.index + 1]]);
    }
  }

  lemma {:induction false} ArithFaithful(line: string, start: nat, s: Scan, quote: char, depth: nat)
    requires Faithful(line, start, s)
    ensures KeepsFaith(line, start, ArithRest(line, s, quote, depth))
    decreases |line| - s.index
  {
    if s.index < |line| {
      var c := line[s.index];
      if Escapes(quote, c) {
        EscapedFaithful(line, start, s, true);
        var next := PutEscaped(line, s, true);
        if next.Ok? { ArithFaithful(line, start, next.scan, quote, depth); }
      } else if quote == NUL && OpensArithmetic(line, s.index) {
        PutFaithful(line, start, s, "$((", "$((");
        var next := Put(s, "$((", "$((");
        if next.Ok? { ArithFaithful(line, start, next.scan, quote, depth + 1); }
      } else if quote == NUL && c == ')' && Peek(line, s.index + 1) == ')' {
        PutFaithful(line, start, s, "))", "))");
        var next := Put(s, "))", "))");
        if next.Ok? && depth > 1 { ArithFaithful(line, start, next.scan, quote, depth - 1); }
      } else {
        PutFaithful(line, start, s, [c], [c]);
        var next := Put(s, [c], [c]);
        if next.Ok? { ArithFaithful(line, start, next.scan, NextQuote(quote, c), depth); }
      }
    }
  }

  lemma {:induction false} CommandFaithful(line: string, start: nat, s: Scan, quote: char, depth: nat)
    requires Faithful(line, start, s)
    ensures KeepsFaith(line, start, CommandRest(line, s, quote, depth))
    decreases |line| - s.index
  {
    if s.index < |line| {
      var c := line[s.index];
      if Escapes(quote, c) {
        EscapedFaithful(line, start, s, false);
        var next := PutEscaped(line, s, false);
        if next.Ok? { CommandFaithful(line, start, next.scan, quote, depth); }
      } else {
        PutFaithful(line, start, s, [c], [c]);
        var next := Put(s, [c], [c]);
        var depth' := CommandDepth(line, s.index, quote, depth);
        if next.Ok? && depth' != 0 { CommandFaithful(line, start, next.scan, NextQuote(quote, c), depth'); }
      }
    }
  }

  lemma {:induction false} QuotedFaithful(line: string, start: nat, s: Scan, quote: char)
    requires Faithful(line, start, s)
    ensures KeepsFaith(line, start, QuotedRest(line, s, quote))
    decreases |line| - s.index
  {
    if s.index < |line| {
      var c := line[s.index];
      PutFaithful(line, start, s, [c], "");
      PutFaithful(line, start, s, [c], [c]);
      if c != quote {
        if quote == '"' && c == '\\' { EscapedFaithful(line, start, s, false); }
        var next := if quote == '"' && c == '\\' then PutEscaped(line, s, false) else Put(s, [c], [c]);
        if next.Ok? { QuotedFaithful(line, start, next.scan, quote); }
      }
    }
  }

  lemma {:induction false} ProcessFaithful(line: string, start: nat, s: Scan, quote: char, depth: nat)
    requires Faithful(line, start, s)
    ensures KeepsFaith(line, start, ProcessRest(line, s, quote, depth))
    decreases |line| - s.index
  {
    if s.index < |line| {
      var c := line[s.index];
      PutFaithful(line, start, s, [c], "");
      PutFaithful(line, start, s, [c], [c]);
      if Escapes(quote, c) {
        EscapedFaithful(line, start, s, true);
        var next := PutEscaped(line, s, true);
        if next.Ok? { ProcessFaithful(line, start, next.scan, quote, depth); }
      } else if !(quote == NUL && c == ')' && depth <= 1) {
        var next := Put(s, [c], [c]);
        var depth' := ProcessDepth(c, quote, depth);
        if next.Ok? { ProcessFaithful(line, start, next.scan, NextQuote(quote, c), depth'); }
      }
    }
  }

  lemma PieceFaithful(line: string, start: nat, s: Scan)
    requires Faithful(line, start, s) && s.index < |line|
    ensures KeepsFaith(line, start, WordPiece(line, s))
  {
    var c := line[s.index];
    if OpensArithmetic(line, s.index) {
      PutFaithful(line, start, s, "$((", "$((");
      var next := Put(s, "$((", "$((");
      if next.Ok? { ArithFaithful(line, start, next.scan, NUL, 1); }
    } else if OpensCommand(line, s.index) {
      PutFaithful(line, start, s, "$(", "$(");
      var next := Put(s, "$(", "$(");
      if next.Ok? { CommandFaithful(line, start, next.scan, NUL, 1); }
    } else if c == '\\' {
      EscapedFaithful(line, start, s, false);
    } else if c == '\'' || c == '"' {
      PutFaithful(line, start, s, [c], "");
      var next := Put(s, [c], "");
      if next.Ok? { QuotedFaithful(line, start, next.scan, c); }
    } else {
      PutFaithful(line, start, s, [c], [c]);
    }
  }

  lemma {:induction false} WordFaithful(line: string, start: nat, s: Scan, any: bool, conditional: bool)
    requires Faithful(line, start, s)
    ensures KeepsFaith(line, start, WordRest(line, s, any, conditional))
    decreases |line| - s.index
  {
    if !(s.index >= |line| || (!OpensCommand(line, s.index) && StopsWord(line, s.index, conditional))) {
      PieceFaithful(line, start, s);
      var next := WordPiece(line, s);
      if next.Ok? { WordFaithful(line, start, next.scan, true, conditional); }
    }
  }

  /** A token is a non-empty slice of the line, within the token limit. */
  predicate IsSlice(line: string, t: Token) {
    t.kind != Eof && 0 < |t.raw| < MAX_TOKEN && |t.text| <= |t.raw| && At(line, t.position, t.raw)
  }

  lemma AtPeek(line: string, i: nat, t: string)
    requires forall k :: 0 <= k < |t| ==> t[k] != NUL && Peek(line, i + k) == t[k]
    requires i <= |line|
    ensures At(line, i, t)
  {
    if t != "" { assert Peek(line, i + (|t| - 1)) == t[|t| - 1]; }
    forall k | 0 <= k < |t| ensures i + k < |line| && line[i + k] == t[k] { assert Peek(line, i + k) == t[k]; }
  }

  lemma FixedOperatorIsSlice(line: string, i: nat)
    requires i < |line| && FixedOperator(line, i).Some?
    ensures var (kind, text) := FixedOperator(line, i).value; kind != Eof && |text| <= 4 && At(line, i, text)
  {
    AtPeek(line, i, FixedOperator(line, i).value.1);
  }

  lemma BracketIsSlice(line: string, i: nat, m: Mode)
    requires i < |line| && DecideInBrackets(line, i, m).Fixed?
    ensures var d := DecideInBrackets(line, i, m); d.kind != Eof && |d.text| < MAX_TOKEN && At(line, i, d.text)
  {
    AtPeek(line, i, DecideInBrackets(line, i, m).text);
  }

  lemma FixedIsSlice(line: string, i: nat, m: Mode)
    requires i < |line| && Decide(line, i, m).Fixed?
    ensures var d := Decide(line, i, m); d.kind != Eof && |d.text| < MAX_TOKEN && At(line, i, d.text)
  {
    if m.inBrackets {
      BracketIsSlice(line, i, m);
    } else if OpensConditional(line, i, m) {
      AtPeek(line, i, "[[");
    } else if FdRedirection(line, i).None? {
      FixedOperatorIsSlice(line, i);
    }
  }

  lemma FoundIsSlice(line: string, i: nat, m: Mode)
    requires i < |line|
    ensures var r := NextToken(line, i, m);
      r.Found? ==> IsSlice(line, r.token) && r.token.position == i && r.end == i + |r.token.raw|
  {
    TokenAdvances(line, i, m);
    match Decide(line, i, m)
    case FdTooLong =>
    case Fixed(kind, text, m') => FixedIsSlice(line, i, m);
    case Process(kind, m') => ProcessFaithful(line, i, Scan(i + 2, [line[i], '('], ""), NUL, 1);
    case WordHere(m') => WordFaithful(line, i, Scan(i, "", ""), false, m.inBrackets);
  }

  // ---------------------------------------------------------------- nothing is lost

  function End(t: Token): nat { t.position + |t.raw| }

  /** Only blanks between `i` and `j`. */
  predicate Blank(line: string, i: nat, j: nat) {
    i <= j <= |line| && forall k :: i <= k < j ==> IsSpace(line[k])
  }

  /** The first `i` characters of the line are the tokens, in order, with blanks before each and at the end. */
  predicate Tiles(line: string, tokens: seq<Token>, i: nat) {
    if tokens == [] then Blank(line, 0, i)
    else
      var t := tokens[|tokens| - 1];
      Tiles(line, tokens[..|tokens| - 1], t.position) && IsSlice(line, t) && Blank(line, End(t), i)
  }

  /** The tokens of a whole line, closed by the end-of-line token. */
  predicate Complete(line: string, tokens: seq<Token>) {
    0 < |tokens| <= MAX_TOKENS && tokens[|tokens| - 1] == Token(Eof, "", "", |line|)
    && Tiles(line, tokens[..|tokens| - 1], |line|)
  }

  lemma TilesSpace(line: string, tokens: seq<Token>, i: nat)
    requires Tiles(line, tokens, i) && i < |line| && IsSpace(line[i])
    ensures Tiles(line, tokens, i + 1)
  {
  }

  lemma TilesToken(line: string, tokens: seq<Token>, i: nat, t: Token)
    requires Tiles(line, tokens, i) && IsSlice(line, t) && t.position == i
    ensures Tiles(line, tokens + [t], End(t))
  {
    assert (tokens + [t])[..|tokens|] == tokens;
  }

  lemma TilesEnd(line: string, tokens: seq<Token>, i: nat)
    requires Tiles(line, tokens, i) && |tokens| < MAX_TOKENS && i >= |line|
    ensures Complete(line, tokens + [Token(Eof, "", "", |line|)])
  {
    assert (tokens + [Token(Eof, "", "", |line|)])[..|tokens|] == tokens;
    assert i == |line|;
  }

  /** A round of the main loop at a blank. */
  lemma BlankRound(line: string, i: nat, m: Mode, tokens: seq<Token>, next: nat)
    requires i < |line| && IsSpace(line[i]) && next == i + 1
    ensures LexRest(line, i, m, tokens) == LexRest(line, next, m, tokens)
  {
  }

  /** A round of the main loop at a character that is no blank. */
  lemma TokenRound(line: string, i: nat, m: Mode, tokens: seq<Token>)
    requires i < |line| && !IsSpace(line[i])
    ensures var next := NextToken(line, i, m);
      if next.Found? && |tokens| < MAX_TOKENS
      then next.end > i && LexRest(line, i, m, tokens) == LexRest(line, next.end, next.mode, tokens + [next.token])
      else LexRest(line, i, m, tokens).LexFailed?
  {
    TokenAdvances(line, i, m);
  }

  lemma {:induction false} LexRestTiles(line: string, i: nat, m: Mode, tokens: seq<Token>)
    requires Tiles(line, tokens, i) && |tokens| <= MAX_TOKENS
    ensures var r := LexRest(line, i, m, tokens); r.Tokens? ==> Complete(line, r.tokens)
    decreases |line| - i
  {
    if i >= |line| {
      if |tokens| < MAX_TOKENS { TilesEnd(line, tokens, i); }
    } else if IsSpace(line[i]) {
      var next := i + 1;
      TilesSpace(line, tokens, i);
      BlankRound(line, i, m, tokens, next);
      LexRestTiles(line, next, m, tokens);
    } else {
      var next := NextToken(line, i, m);
      TokenRound(line, i, m, tokens);
      if next.Found? && |tokens| < MAX_TOKENS {
        var (token, end, m') := (next.token, next.end, next.mode);
        FoundIsSlice(line, i, m);
        TilesToken(line, tokens, i, token);
        assert End(token) == end;
        LexRestTiles(line, end, m', tokens + [token]);
      }
    }
  }

  /** Token `k` is a slice of the line and only blanks lie between it and the one before it. */
  predicate InPlace(line: string, tokens: seq<Token>, k: nat)
    requires k < |tokens|
  {
    IsSlice(line, tokens[k]) && Blank(line, if k == 0 then 0 else End(tokens[k - 1]), tokens[k].position)
  }

  lemma {:induction false} TilesInPlace(line: string, tokens: seq<Token>, i: nat, k: nat)
    requires Tiles(line, tokens, i) && k < |tokens|
    ensures InPlace(line, tokens, k)
  {
    var front := tokens[..|tokens| - 1];
    if k < |front| {
      TilesInPlace(line, front, tokens[|front|].position, k);
    } else if k > 0 {
      assert front[|front| - 1] == tokens[k - 1];
    }
  }

  /**
   * Lexing is lossless: each raw text is the slice of the line at its position, the tokens are
   * non-empty, in order and disjoint, only blanks lie before, between and after them, and the
   * end-of-line token closes the stream.
   */
  lemma LexIsLossless(line: string, tokens: seq<Token>)
    requires LexLine(line) == Tokens(tokens)
    ensures 0 < |tokens| <= MAX_TOKENS && tokens[|tokens| - 1] == Token(Eof, "", "", |line|)
    ensures forall k :: 0 <= k < |tokens| - 1 ==> InPlace(line, tokens, k)
    ensures Blank(line, if |tokens| == 1 then 0 else End(tokens[|tokens| - 2]), |line|)
  {
    LexRestTiles(line, 0, START, []);
    var front := tokens[..|tokens| - 1];
    forall k | 0 <= k < |tokens| - 1 ensures InPlace(line, tokens, k) {
      TilesInPlace(line, front, |line|, k);
    }
  }

  // ---------------------------------------------------------------- which token is found

  /** The spelling of the operators that have one. */
  function Spelling(k: Kind): Option<string> {
    match k
    case ObjectPipe => Some("|>")
    case OrIf => Some("||")
    case Arrow => Some("->")
    case ShellPipe => Some("|")
    case AndIf => Some("&&")
    case Background => Some("&")
    case Sequence => Some(";")
    case HereString => Some("<<<")
    case HeredocStrip => Some("<<-")
    case Heredoc => Some("<<")
    case RedirectAppend => Some(">>")
    case RedirectOut => Some(">")
    case RedirectIn => Some("<")
    case Lparen => Some("(")
    case Rparen => Some(")")
    case Comma => Some(",")
    case _ => None
  }

  /** What follows the digits in the redirections that name a descriptor. */
  function FdSpelling(k: Kind): Option<string> {
    match k
    case RedirectDupOut => Some(">&")
    case RedirectDupIn => Some("<&")
    case RedirectFdAppend => Some(">>")
    case RedirectFdOut => Some(">")
    case RedirectFdIn => Some("<")
    case _ => None
  }

  predicate AllDigits(s: string) { s != "" && forall k :: 0 <= k < |s| ==> IsDigit(s[k]) }

  predicate Stands(line: string, i: nat, spelling: Option<string>) {
    spelling.Some? && At(line, i, spelling.value)
  }

  /** `raw` is the operator of kind `k`, and no longer operator stands at `i`. */
  predicate LongestOperator(line: string, i: nat, k: Kind, raw: string) {
    Spelling(k) == Some(raw) && At(line, i, raw)
    && forall k' :: Stands(line, i, Spelling(k')) ==> |Spelling(k').value| <= |raw|
  }

  /** The same for what follows the digits of a descriptor. */
  predicate LongestFdOperator(line: string, i: nat, k: Kind, raw: string) {
    FdSpelling(k) == Some(raw) && At(line, i, raw)
    && forall k' :: Stands(line, i, FdSpelling(k')) ==> |FdSpelling(k').value| <= |raw|
  }

  predicate DigitsThenOperator(line: string, t: Token, n: nat) {
    n < |t.raw| && AllDigits(t.raw[..n]) && LongestFdOperator(line, t.position + n, t.kind, t.raw[n..])
  }

  /**
   * A token is a word, a process substitution, the longest operator at its place, or digits and
   * then the longest operator that may follow them.
   */
  ghost predicate WellChosen(line: string, t: Token) {
    match t.kind
    case Word => true
    case ProcSubstIn => At(line, t.position, "<(")
    case ProcSubstOut => At(line, t.position, ">(")
    case _ =>
      LongestOperator(line, t.position, t.kind, t.raw) || exists n: nat :: DigitsThenOperator(line, t, n)
  }

  lemma StandsFirst(line: string, i: nat, t: string)
    requires At(line, i, t) && t != ""
    ensures t[0] == Peek(line, i) && (|t| > 1 ==> t[1] == Peek(line, i + 1)) && (|t| > 2 ==> t[2] == Peek(line, i + 2))
  {
    assert line[i..i + |t|] == t;
  }

  lemma FixedOperatorIsSpelled(line: string, i: nat)
    requires FixedOperator(line, i).Some? && FdRedirection(line, i) == None
    ensures var (kind, text) := FixedOperator(line, i).value; Spelling(kind) == Some(text)
  {
  }

  lemma FixedOperatorIsLongest(line: string, i: nat)
    requires FixedOperator(line, i).Some? && FdRedirection(line, i) == None && i < |line|
    ensures LongestOperator(line, i, FixedOperator(line, i).value.0, FixedOperator(line, i).value.1)
  {
    FixedOperatorIsSpelled(line, i);
    FixedOperatorIsSlice(line, i);
    forall k' | Stands(line, i, Spelling(k')) ensures |Spelling(k').value| <= |FixedOperator(line, i).value.1| {
      StandsFirst(line, i, Spelling(k').value);
    }
  }

  lemma FdSpelled(line: string, i: nat)
    requires FdRedirection(line, i).Some?
    ensures var (kind, n) := FdRedirection(line, i).value; var e := DigitsEnd(line, i + 1);
      i < e < i + n && LongestFdOperator(line, e, kind, line[e..i + n])
  {
    var (kind, n) := FdRedirection(line, i).value;
    var e := DigitsEnd(line, i + 1);
    var raw := FdSpelling(kind).value;
    AtPeek(line, e, raw);
    forall k' | Stands(line, e, FdSpelling(k')) ensures |FdSpelling(k').value| <= |raw| {
      var w := FdSpelling(k').value;
      assert w[0] == line[e] && (|w| > 1 ==> w[1] == line[e + 1]) by { assert line[e..e + |w|] == w; }
    }
  }

  lemma FdRedirectionIsLongest(line: string, i: nat, t: Token)
    requires FdRedirection(line, i).Some? && t.position == i
    requires t.kind == FdRedirection(line, i).value.0 && t.raw == line[i..i + FdRedirection(line, i).value.1]
    ensures exists n: nat :: DigitsThenOperator(line, t, n)
  {
    FdSpelled(line, i);
    var n := DigitsEnd(line, i + 1) - i;
    assert t.raw[n..] == line[i + n..i + |t.raw|];
    assert t.raw[..n] == line[i..i + n];
    assert DigitsThenOperator(line, t, n);
  }

  lemma FoundIsWellChosen(line: string, i: nat, m: Mode)
    requires i < |line|
    ensures var r := NextToken(line, i, m); r.Found? ==> WellChosen(line, r.token)
  {
    var r := NextToken(line, i, m);
    match Decide(line, i, m)
    case FdTooLong =>
    case Process(kind, m') =>
    case WordHere(m') =>
    case Fixed(kind, text, m') =>
      if kind != Word {
        var fd := FdRedirection(line, i);
        if fd.Some? { FdRedirectionIsLongest(line, i, r.token); } else { FixedOperatorIsLongest(line, i); }
      }
  }

  ghost predicate AllWellChosen(line: string, tokens: seq<Token>) {
    forall k :: 0 <= k < |tokens| && tokens[k].kind != Eof ==> WellChosen(line, tokens[k])
  }

  lemma {:induction false} LexRestWellChosen(line: string, i: nat, m: Mode, tokens: seq<Token>)
    requires AllWellChosen(line, tokens)
    ensures var r := LexRest(line, i, m, tokens); r.Tokens? ==> AllWellChosen(line, r.tokens)
    decreases |line| - i
  {
    if i < |line| {
      if IsSpace(line[i]) {
        LexRestWellChosen(line, i + 1, m, tokens);
      } else {
        var next := NextToken(line, i, m);
        TokenRound(line, i, m, tokens);
        if next.Found? && |tokens| < MAX_TOKENS {
          FoundIsWellChosen(line, i, m);
          LexRestWellChosen(line, next.end, next.mode, tokens + [next.token]);
        }
      }
    }
  }

  /** Operators are recognised by the longest match. */
  lemma OperatorsAreLongest(line: string, tokens: seq<Token>, k: nat)
    requires LexLine(line) == Tokens(tokens) && k < |tokens| && tokens[k].kind != Eof
    ensures WellChosen(line, tokens[k])
  {
    LexRestWellChosen(line, 0, START, []);
  }

  /** The kinds made for descriptor 2 alone never occur: the general form is tried first. */
  lemma NoErrorRedirections(line: string, tokens: seq<Token>, k: nat)
    requires LexLine(line) == Tokens(tokens) && k < |tokens|
    ensures tokens[k].kind !in {RedirectError, RedirectErrorAppend, RedirectErrorToOutput}
  {
    if tokens[k].kind in {RedirectError, RedirectErrorAppend, RedirectErrorToOutput} {
      OperatorsAreLongest(line, tokens, k);
    }
  }

  // ---------------------------------------------------------------- a word is always there

  /** Where the lexer decides for a word, the word has at least one character. */
  lemma WordsAreNeverEmpty(line: string, i: nat, m: Mode)
    requires i < |line| && !IsSpace(line[i]) && Decide(line, i, m).WordHere?
    ensures OpensCommand(line, i) || !StopsWord(line, i, m.inBrackets)
  {
  }

  lemma {:induction false} WordRestIsValid(line: string, s: Scan, any: bool, conditional: bool)
    requires any || (s.index < |line| && (OpensCommand(line, s.index) || !StopsWord(line, s.index, conditional)))
    ensures WordRest(line, s, any, conditional) != Fail(InvalidToken)
    decreases |line| - s.index
  {
    if !(s.index >= |line| || (!OpensCommand(line, s.index) && StopsWord(line, s.index, conditional))) {
      PieceIsValid(line, s);
      var next := WordPiece(line, s);
      if next.Ok? { WordRestIsValid(line, next.scan, true, conditional); }
    }
  }

  lemma PieceIsValid(line: string, s: Scan)
    requires s.index < |line|
    ensures WordPiece(line, s) != Fail(InvalidToken)
  {
    ArithIsValid(line, Scan(s.index + 3, s.raw + "$((", s.cooked + "$(("), NUL, 1);
    CommandIsValid(line, Scan(s.index + 2, s.raw + "$(", s.cooked + "$("), NUL, 1);
    QuotedIsValid(line, Scan(s.index + 1, s.raw + [line[s.index]], s.cooked + ""), line[s.index]);
  }

  lemma ArithIsValid(line: string, s: Scan, quote: char, depth: nat)
    ensures ArithRest(line, s, quote, depth) != Fail(InvalidToken)
    decreases |line| - s.index
  {}

  lemma CommandIsValid(line: string, s: Scan, quote: char, depth: nat)
    ensures CommandRest(line, s, quote, depth) != Fail(InvalidToken)
    decreases |line| - s.index
  {}

  lemma QuotedIsValid(line: string, s: Scan, quote: char)
    ensures QuotedRest(line, s, quote) != Fail(InvalidToken)
    decreases |line| - s.index
  {}

  lemma ProcessIsValid(line: string, s: Scan, quote: char, depth: nat)
    ensures ProcessRest(line, s, quote, depth) != Fail(InvalidToken)
    decreases |line| - s.index
  {}

  lemma {:induction false} LexRestIsValid(line: string, i: nat, m: Mode, tokens: seq<Token>)
    ensures LexRest(line, i, m, tokens) != LexFailed(InvalidToken)
    decreases |line| - i
  {
    if i < |line| {
      if IsSpace(line[i]) {
        LexRestIsValid(line, i + 1, m, tokens);
      } else {
        var next := NextToken(line, i, m);
        if next.Found? {
          TokenAdvances(line, i, m);
          LexRestIsValid(line, next.end, next.mode, tokens + [next.token]);
        } else {
          ProcessIsValid(line, Scan(i + 2, [line[i], '('], ""), NUL, 1);
          if Decide(line, i, m).WordHere? {
            WordsAreNeverEmpty(line, i, m);
            WordRestIsValid(line, Scan(i, "", ""), false, m.inBrackets);
          }
        }
      }
    }
  }

  /** Every character that is no blank starts a token: the word scanner is never left with nothing. */
  lemma NoInvalidToken(line: string)
    ensures LexLine(line) != LexFailed(InvalidToken)
  {
    LexRestIsValid(line, 0, START, []);
  }
}
