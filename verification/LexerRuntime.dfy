/** The lexer as the source runs it: a shared index and buffers filled character by character. */
module LexerRuntime {
  import opened Text
  import opened Lexer

  class Scanner {
    const line: string
    var index: nat
    var raw: string
    var cooked: string

    constructor (line: string)
      ensures this.line == line && State() == Scan(0, "", "")
    {
      this.line, index, raw, cooked := line, 0, "", "";
    }

    ghost function State(): (s: Scan)
      reads this
    {
      Scan(index, raw, cooked)
    }

    /** The call ended as `r` says: no error means success with the scan reached. */
    ghost predicate Did(r: Scanned, error: Option<LexError>)
      reads this
    {
      match r
      case Ok(s) => error == None && State() == s
      case Fail(e) => error == Some(e)
    }

    /** A run of `append_char` calls, moving past the raw characters. */
    method Take(r: string, c: string) returns (error: Option<LexError>)
      modifies this
      ensures Did(Put(old(State()), r, c), error)
    {
      if |raw| + |r| >= MAX_TOKEN || |cooked| + |c| >= MAX_TOKEN { return Some(TooLong); }
      raw, cooked, index := raw + r, cooked + c, index + |r|;
      return None;
    }

    /** A backslash and the character it escapes. */
    method TakeEscaped(keep: bool) returns (error: Option<LexError>)
      modifies this
      ensures Did(PutEscaped(line, old(State()), keep), error)
    {
      error := Take("\\", if keep then "\\" else "");
      if error.Some? { return; }
      if index >= |line| { return Some(DanglingEscape); }
      error := Take([line[index]], [line[index]]);
    }

    /** `scan_arithmetic_expansion` */
    method ScanArithmetic() returns (error: Option<LexError>)
      requires OpensArithmetic(line, index)
      modifies this
      ensures Did(WordPiece(line, old(State())), error)
    {
      var quote, depth := NUL, 1;
      ghost var all := WordPiece(line, State());
      error := Take("$((", "$((");
      if error.Some? { return; }
      while index < |line|
        invariant depth > 0 && all == ArithRest(line, State(), quote, depth)
        decreases |line| - index
      {
        var c := line[index];
        if Escapes(quote, c) {
          error := TakeEscaped(true);
        } else if quote == NUL && OpensArithmetic(line, index) {
          error := Take("$((", "$((");
          depth := depth + 1;
        } else if quote == NUL && c == ')' && Peek(line, index + 1) == ')' {
          error := Take("))", "))");
          depth := depth - 1;
          if error.None? && depth == 0 { return; }
        } else {
          error := Take([c], [c]);
          quote := NextQuote(quote, c);
        }
        if error.Some? { return; }
      }
      return Some(Unterminated);
    }

    /** The command substitution loop of `scan_word_token`. */
    method ScanCommand() returns (error: Option<LexError>)
      requires OpensCommand(line, index) && !OpensArithmetic(line, index)
      modifies this
      ensures Did(WordPiece(line, old(State())), error)
    {
      var quote, depth := NUL, 1;
      ghost var all := WordPiece(line, State());
      error := Take("$(", "$(");
      if error.Some? { return; }
      while index < |line|
        invariant depth > 0 && all == CommandRest(line, State(), quote, depth)
        decreases |line| - index
      {
        var c := line[index];
        if Escapes(quote, c) {
          error := TakeEscaped(false);
        } else {
          depth := CommandDepth(line, index, quote, depth);
          quote := NextQuote(quote, c);
          error := Take([c], [c]);
          if error.None? && depth == 0 { return; }
        }
        if error.Some? { return; }
      }
      return Some(Unterminated);
    }

    /** The quoted stretch of `scan_word_token`. */
    method ScanQuoted() returns (error: Option<LexError>)
      requires index < |line| && (line[index] == '\'' || line[index] == '"')
      modifies this
      ensures Did(WordPiece(line, old(State())), error)
    {
      var quote := line[index];
      ghost var all := WordPiece(line, State());
      error := Take([quote], "");
      if error.Some? { return; }
      while index < |line| && line[index] != quote
        invariant all == QuotedRest(line, State(), quote)
        decreases |line| - index
      {
        var c := line[index];
        if quote == '"' && c == '\\' {
          error := TakeEscaped(false);
        } else {
          error := Take([c], [c]);
        }
        if error.Some? { return; }
      }
      if index >= |line| { return Some(Unterminated); }
      error := Take([line[index]], "");
    }

    /** `scan_word_token` from `start`. */
    method ScanWordToken(start: nat, conditional: bool) returns (error: Option<LexError>)
      modifies this
      ensures Did(ScanWord(line, start, conditional), error)
    {
      index, raw, cooked := start, "", "";
      var any := false;
      while index < |line| && (OpensCommand(line, index) || !StopsWord(line, index, conditional))
        invariant ScanWord(line, start, conditional) == WordRest(line, State(), any, conditional)
        decreases |line| - index
      {
        var c := line[index];
        if OpensArithmetic(line, index) {
          error := ScanArithmetic();
        } else if OpensCommand(line, index) {
          error := ScanCommand();
        } else if c == '\\' {
          error := TakeEscaped(false);
        } else if c == '\'' || c == '"' {
          error := ScanQuoted();
        } else {
          error := Take([c], [c]);
        }
        if error.Some? { return; }
        any := true;
      }
      return if any then None else Some(InvalidToken);
    }

    /** `scan_process_substitution_token` from `start`. */
    method ScanProcessToken(start: nat) returns (error: Option<LexError>)
      modifies this
      ensures Did(ScanProcess(line, start), error)
    {
      index, raw, cooked := start + 2, [Peek(line, start), '('], "";
      var quote, depth := NUL, 1;
      while index < |line|
        invariant depth > 0 && ScanProcess(line, start) == ProcessRest(line, State(), quote, depth)
        decreases |line| - index
      {
        var c := line[index];
        if Escapes(quote, c) {
          error := TakeEscaped(true);
        } else {
          if quote == NUL && c == '(' { depth := depth + 1; }
          if quote == NUL && c == ')' { depth := depth - 1; }
          quote := NextQuote(quote, c);
          error := Take([c], if depth == 0 then "" else [c]);
          if depth == 0 { return; }
        }
        if error.Some? { return; }
      }
      return Some(Unterminated);
    }
  }

  /** `match_fd_redirection_token` */
  method MatchFdRedirection(line: string, i: nat) returns (found: Option<(Kind, nat)>)
    ensures found == FdRedirection(line, i)
  {
    if i >= |line| || !IsDigit(line[i]) { return None; }
    var cursor := i + 1;
    while cursor < |line| && IsDigit(line[cursor])
      invariant i < cursor <= |line| && DigitsEnd(line, i + 1) == DigitsEnd(line, cursor)
    {
      cursor := cursor + 1;
    }
    if cursor >= |line| { return None; }
    var c, d := line[cursor], Peek(line, cursor + 1);
    if c == '>' && d == '&' { return Some((RedirectDupOut, cursor + 2 - i)); }
    if c == '<' && d == '&' { return Some((RedirectDupIn, cursor + 2 - i)); }
    if c == '>' && d == '>' { return Some((RedirectFdAppend, cursor + 2 - i)); }
    if c == '>' { return Some((RedirectFdOut, cursor + 1 - i)); }
    if c == '<' { return Some((RedirectFdIn, cursor + 1 - i)); }
    return None;
  }

  /** The token that starts at `i`, scanned into the scanner's buffers unless it is fixed. */
  method FindToken(scanner: Scanner, i: nat, m: Mode) returns (found: Found)
    requires i < |scanner.line|
    modifies scanner
    ensures found == NextToken(scanner.line, i, m)
  {
    match Decide(scanner.line, i, m) {
      case FdTooLong => return NotFound(TooLong);
      case Fixed(kind, text, m') => return Found(Token(kind, text, text, i), i + |text|, m');
      case Process(kind, m') =>
        var error := scanner.ScanProcessToken(i);
        if error.Some? { return NotFound(error.value); }
        return Found(Token(kind, scanner.raw, scanner.raw, i), scanner.index, m');
      case WordHere(m') =>
        var error := scanner.ScanWordToken(i, m.inBrackets);
        if error.Some? { return NotFound(error.value); }
        return Found(Token(Word, scanner.cooked, scanner.raw, i), scanner.index, m');
    }
  }

  /** `arksh_lex_line` */
  method LexTokens(line: string) returns (result: Lexed)
    ensures result == LexLine(line)
  {
    var scanner := new Scanner(line);
    var tokens: seq<Token>, m, i := [], START, 0;
    while i < |line|
      invariant scanner.line == line && LexLine(line) == LexRest(line, i, m, tokens)
      decreases |line| - i
    {
      if IsSpace(line[i]) {
        i := i + 1;
        continue;
      }
      if Decide(line, i, m) == FdTooLong { return LexFailed(TooLong); }
      if |tokens| >= MAX_TOKENS { return LexFailed(TooManyTokens); }
      TokenAdvances(line, i, m);
      var next := FindToken(scanner, i, m);
      if next.NotFound? { return LexFailed(next.error); }
      tokens, i, m := tokens + [next.token], next.end, next.mode;
    }
    if m.inBrackets { return LexFailed(OpenConditional); }
    if |tokens| >= MAX_TOKENS { return LexFailed(TooManyTokens); }
    return Tokens(tokens + [Token(Eof, "", "", |line|)]);
  }
}
