/**
 * The lexer as functions of the line: where each scan stops, what it copies, and which token
 * starts at a position. Lines are C strings, so a character past the end reads as NUL.
 */
module Lexer {
  import opened Text

  const MAX_TOKENS: nat := 128
  const NUL: char := '\0'

  datatype Kind =
    | Eof | Word | Arrow | ObjectPipe | ShellPipe | RedirectIn | RedirectOut | RedirectAppend
    | ProcSubstIn | ProcSubstOut | HereString | Heredoc | HeredocStrip
    | RedirectError | RedirectErrorAppend | RedirectErrorToOutput
    | RedirectFdIn | RedirectFdOut | RedirectFdAppend | RedirectDupIn | RedirectDupOut
    | AndIf | OrIf | Sequence | Background | Lparen | Rparen | Comma

  datatype Token = Token(kind: Kind, text: string, raw: string, position: nat)

  datatype LexError = TooLong | DanglingEscape | Unterminated | InvalidToken | TooManyTokens | OpenConditional

  /** The index a scan has reached and the two buffers it fills. */
  datatype Scan = Scan(index: nat, raw: string, cooked: string)

  datatype Scanned = Ok(scan: Scan) | Fail(error: LexError)

  datatype Lexed = Tokens(tokens: seq<Token>) | LexFailed(error: LexError)

  function Peek(line: string, i: nat): char {
    if i < |line| then line[i] else NUL
  }

  // ---------------------------------------------------------------- scanning

  /** Append `raw` and `cooked` to the buffers, moving past the characters of `raw`. */
  function Put(s: Scan, raw: string, cooked: string): Scanned {
    if |s.raw| + |raw| >= MAX_TOKEN || |s.cooked| + |cooked| >= MAX_TOKEN then Fail(TooLong)
    else Ok(Scan(s.index + |raw|, s.raw + raw, s.cooked + cooked))
  }

  /** A backslash and the character after it; `keep` says whether the backslash is cooked too. */
  function PutEscaped(line: string, s: Scan, keep: bool): (r: Scanned)
    ensures r.Ok? ==> r.scan.index == s.index + 2
  {
    var first := Put(s, "\\", if keep then "\\" else "");
    if first.Fail? then first
    else if s.index + 1 >= |line| then Fail(DanglingEscape)
    else Put(first.scan, [line[s.index + 1]], [line[s.index + 1]])
  }

  /** The quote state after the unescaped character `c`. */
  function NextQuote(quote: char, c: char): char {
    if quote == NUL then (if c == '\'' || c == '"' then c else NUL)
    else if c == quote then NUL else quote
  }

  predicate Escapes(quote: char, c: char) { c == '\\' && (quote == NUL || quote == '"') }

  predicate OpensArithmetic(line: string, i: nat) {
    Peek(line, i) == '$' && Peek(line, i + 1) == '(' && Peek(line, i + 2) == '('
  }

  predicate OpensCommand(line: string, i: nat) {
    Peek(line, i) == '$' && Peek(line, i + 1) == '('
  }

  /** The rest of `scan_arithmetic_expansion`, inside `depth` of them. */
  function ArithRest(line: string, s: Scan, quote: char, depth: nat): (r: Scanned)
    ensures r.Ok? ==> r.scan.index > s.index
    decreases |line| - s.index
  {
    if s.index >= |line| then Fail(Unterminated)
    else
      var c := line[s.index];
      if Escapes(quote, c) then
        var next := PutEscaped(line, s, true);
        if next.Fail? then next else ArithRest(line, next.scan, quote, depth)
      else if quote == NUL && OpensArithmetic(line, s.index) then
        var next := Put(s, "$((", "$((");
        if next.Fail? then next else ArithRest(line, next.scan, quote, depth + 1)
      else if quote == NUL && c == ')' && Peek(line, s.index + 1) == ')' then
        var next := Put(s, "))", "))");
        if next.Fail? || depth <= 1 then next else ArithRest(line, next.scan, quote, depth - 1)
      else
        var next := Put(s, [c], [c]);
        if next.Fail? then next else ArithRest(line, next.scan, NextQuote(quote, c), depth)
  }

  /** The nesting after the unescaped character at `i` of a command substitution. */
  function CommandDepth(line: string, i: nat, quote: char, depth: nat): nat {
    if quote != NUL then depth
    else if OpensCommand(line, i) then depth + 1
    else if Peek(line, i) == ')' && depth > 0 then depth - 1 else depth
  }

  /** The rest of a `$(` command substitution inside `depth` of them. */
  function CommandRest(line: string, s: Scan, quote: char, depth: nat): (r: Scanned)
    ensures r.Ok? ==> r.scan.index > s.index
    decreases |line| - s.index
  {
    if s.index >= |line| then Fail(Unterminated)
    else
      var c := line[s.index];
      if Escapes(quote, c) then
        var next := PutEscaped(line, s, false);
        if next.Fail? then next else CommandRest(line, next.scan, quote, depth)
      else
        var next := Put(s, [c], [c]);
        var depth' := CommandDepth(line, s.index, quote, depth);
        if next.Fail? || depth' == 0 then next else CommandRest(line, next.scan, NextQuote(quote, c), depth')
  }

  /** The rest of a quoted stretch, up to and with the closing quote. */
  function QuotedRest(line: string, s: Scan, quote: char): (r: Scanned)
    ensures r.Ok? ==> r.scan.index > s.index
    decreases |line| - s.index
  {
    if s.index >= |line| then Fail(Unterminated)
    else
      var c := line[s.index];
      if c == quote then Put(s, [c], "")
      else
        var next := if quote == '"' && c == '\\' then PutEscaped(line, s, false) else Put(s, [c], [c]);
        if next.Fail? then next else QuotedRest(line, next.scan, quote)
  }

  /** The nesting after the unescaped character `c` of a process substitution, unless it ends there. */
  function ProcessDepth(c: char, quote: char, depth: nat): nat {
    if quote != NUL then depth
    else if c == '(' then depth + 1
    else if c == ')' && depth > 0 then depth - 1 else depth
  }

  /** The rest of a process substitution; its last parenthesis is not cooked. */
  function ProcessRest(line: string, s: Scan, quote: char, depth: nat): (r: Scanned)
    ensures r.Ok? ==> r.scan.index > s.index
    decreases |line| - s.index
  {
    if s.index >= |line| then Fail(Unterminated)
    else
      var c := line[s.index];
      if Escapes(quote, c) then
        var next := PutEscaped(line, s, true);
        if next.Fail? then next else ProcessRest(line, next.scan, quote, depth)
      else if quote == NUL && c == ')' && depth <= 1 then Put(s, [c], "")
      else
        var next := Put(s, [c], [c]);
        var depth' := ProcessDepth(c, quote, depth);
        if next.Fail? then next else ProcessRest(line, next.scan, NextQuote(quote, c), depth')
  }

  // ---------------------------------------------------------------- what ends a word

  function DigitsEnd(line: string, i: nat): (e: nat)
    ensures i <= |line| ==> i <= e <= |line|
    ensures forall k :: i <= k < e && k < |line| ==> IsDigit(line[k])
    ensures !IsDigit(Peek(line, e))
    decreases |line| - i
  {
    if i < |line| && IsDigit(line[i]) then DigitsEnd(line, i + 1) else i
  }

  /** `match_fd_redirection_token`: the kind and the length of a redirection with a descriptor. */
  function FdRedirection(line: string, i: nat): (r: Option<(Kind, nat)>)
    ensures r.Some? ==> 2 <= r.value.1 && i + r.value.1 <= |line|
  {
    if i >= |line| || !IsDigit(line[i]) then None
    else
      var e := DigitsEnd(line, i + 1);
      var c, d := Peek(line, e), Peek(line, e + 1);
      if c == '>' && d == '&' then Some((RedirectDupOut, e + 2 - i))
      else if c == '<' && d == '&' then Some((RedirectDupIn, e + 2 - i))
      else if c == '>' && d == '>' then Some((RedirectFdAppend, e + 2 - i))
      else if c == '>' then Some((RedirectFdOut, e + 1 - i))
      else if c == '<' then Some((RedirectFdIn, e + 1 - i))
      else None
  }

  predicate OpensProcess(line: string, i: nat) {
    (Peek(line, i) == '<' || Peek(line, i) == '>') && Peek(line, i + 1) == '('
  }

  /** `is_special_token_start` */
  predicate IsSpecial(line: string, i: nat) {
    var c := Peek(line, i);
    FdRedirection(line, i).Some? || (c == '-' && Peek(line, i + 1) == '>')
    || c == '|' || c == '&' || c == ';' || c == '<' || c == '>' || c == '(' || c == ')' || c == ','
  }

  predicate Twice(line: string, i: nat, c: char) { Peek(line, i) == c && Peek(line, i + 1) == c }

  /** Does a word stop before the character at `i`? */
  predicate StopsWord(line: string, i: nat, conditional: bool) {
    var c := Peek(line, i);
    IsSpace(c)
    || (if !conditional then IsSpecial(line, i)
        else Twice(line, i, ']') || Twice(line, i, '&') || Twice(line, i, '|') || c == '!' || c == '(' || c == ')')
  }

  /** One round of the loop of `scan_word_token`. */
  function WordPiece(line: string, s: Scan): (r: Scanned)
    requires s.index < |line|
    ensures r.Ok? ==> r.scan.index > s.index
  {
    var c := line[s.index];
    if OpensArithmetic(line, s.index) then
      var next := Put(s, "$((", "$((");
      if next.Fail? then next else ArithRest(line, next.scan, NUL, 1)
    else if OpensCommand(line, s.index) then
      var next := Put(s, "$(", "$(");
      if next.Fail? then next else CommandRest(line, next.scan, NUL, 1)
    else if c == '\\' then PutEscaped(line, s, false)
    else if c == '\'' || c == '"' then
      var next := Put(s, [c], "");
      if next.Fail? then next else QuotedRest(line, next.scan, c)
    else Put(s, [c], [c])
  }

  /** The rest of `scan_word_token`; `any` says whether the word has a character yet. */
  function WordRest(line: string, s: Scan, any: bool, conditional: bool): Scanned
    decreases |line| - s.index
  {
    if s.index >= |line| || (!OpensCommand(line, s.index) && StopsWord(line, s.index, conditional)) then
      if any then Ok(s) else Fail(InvalidToken)
    else
      var next := WordPiece(line, s);
      if next.Fail? then next else WordRest(line, next.scan, true, conditional)
  }

  function ScanWord(line: string, i: nat, conditional: bool): Scanned {
    WordRest(line, Scan(i, "", ""), false, conditional)
  }

  function ScanProcess(line: string, i: nat): (r: Scanned)
    ensures r.Ok? ==> r.scan.index > i
  {
    ProcessRest(line, Scan(i + 2, [Peek(line, i), '('], ""), NUL, 1)
  }

  // ---------------------------------------------------------------- the tokens of a line

  /** Inside a conditional or not; may a command word come next; is a redirection waiting for its target? */
  datatype Mode = Mode(inBrackets: bool, wordAllowed: bool, pending: bool)

  const START: Mode := Mode(false, true, false)

  datatype Decision =
    | Fixed(kind: Kind, text: string, mode: Mode)
    | Process(kind: Kind, mode: Mode)
    | WordHere(mode: Mode)
    | FdTooLong

  /** The operators that are spelled one way, in the order the source tries them. */
  function FixedOperator(line: string, i: nat): Option<(Kind, string)> {
    var c, d, e := Peek(line, i), Peek(line, i + 1), Peek(line, i + 2);
    if c == '|' && d == '>' then Some((ObjectPipe, "|>"))
    else if c == '|' && d == '|' then Some((OrIf, "||"))
    else if c == '-' && d == '>' then Some((Arrow, "->"))
    else if c == '|' then Some((ShellPipe, "|"))
    else if c == '&' && d == '&' then Some((AndIf, "&&"))
    else if c == '&' then Some((Background, "&"))
    else if c == ';' then Some((Sequence, ";"))
    else if c == '2' && d == '>' && e == '&' && Peek(line, i + 3) == '1' then Some((RedirectErrorToOutput, "2>&1"))
    else if c == '2' && d == '>' && e == '>' then Some((RedirectErrorAppend, "2>>"))
    else if c == '2' && d == '>' then Some((RedirectError, "2>"))
    else if c == '<' && d == '<' && e == '<' then Some((HereString, "<<<"))
    else if c == '<' && d == '<' && e == '-' then Some((HeredocStrip, "<<-"))
    else if c == '<' && d == '<' then Some((Heredoc, "<<"))
    else if c == '>' && d == '>' then Some((RedirectAppend, ">>"))
    else if c == '>' then Some((RedirectOut, ">"))
    else if c == '<' then Some((RedirectIn, "<"))
    else if c == '(' then Some((Lparen, "("))
    else if c == ')' then Some((Rparen, ")"))
    else if c == ',' then Some((Comma, ","))
    else None
  }

  /** What an operator outside a conditional does to the flags. */
  function AfterOperator(kind: Kind, m: Mode): Mode {
    match kind
    case ObjectPipe | OrIf | ShellPipe | AndIf | Background | Sequence | Lparen => Mode(false, true, false)
    case Rparen => Mode(false, false, false)
    case RedirectErrorToOutput => m.(pending := false)
    case Arrow | Comma => m
    case _ => m.(pending := true)
  }

  predicate OpensConditional(line: string, i: nat, m: Mode) {
    m.wordAllowed && !m.pending && Twice(line, i, '[')
    && (i + 2 >= |line| || IsSpace(line[i + 2]) || line[i + 2] == '!' || line[i + 2] == '(')
  }

  function ProcessKind(line: string, i: nat): Kind {
    if Peek(line, i) == '<' then ProcSubstIn else ProcSubstOut
  }

  function DecideInBrackets(line: string, i: nat, m: Mode): Decision {
    var c := Peek(line, i);
    if OpensProcess(line, i) then Process(ProcessKind(line, i), m)
    else if Twice(line, i, ']') then Fixed(Word, "]]", Mode(false, false, false))
    else if Twice(line, i, '&') then Fixed(Word, "&&", m)
    else if Twice(line, i, '|') then Fixed(Word, "||", m)
    else if c == '!' || c == '(' || c == ')' then Fixed(Word, [c], m)
    else WordHere(m)
  }

  function DecideOutside(line: string, i: nat, m: Mode): Decision {
    if OpensConditional(line, i, m) then Fixed(Word, "[[", Mode(true, false, m.pending))
    else
      var fd := FdRedirection(line, i);
      if fd.Some? then
        if fd.value.1 >= MAX_TOKEN then FdTooLong
        else Fixed(fd.value.0, line[i..i + fd.value.1], m.(pending := true))
      else if OpensProcess(line, i) then Process(ProcessKind(line, i), m.(pending := false, wordAllowed := false))
      else
        var op := FixedOperator(line, i);
        if op.Some? then Fixed(op.value.0, op.value.1, AfterOperator(op.value.0, m))
        else WordHere(if m.pending then m.(pending := false) else m.(wordAllowed := false))
  }

  function Decide(line: string, i: nat, m: Mode): (d: Decision)
    ensures d.Fixed? ==> d.text != ""
  {
    if m.inBrackets then DecideInBrackets(line, i, m) else DecideOutside(line, i, m)
  }

  /** The token that starts at `i`, where it ends, and the flags after it. */
  datatype Found = Found(token: Token, end: nat, mode: Mode) | NotFound(error: LexError)

  function NextToken(line: string, i: nat, m: Mode): Found
    requires i < |line|
  {
    match Decide(line, i, m)
    case FdTooLong => NotFound(TooLong)
    case Fixed(kind, text, m') => Found(Token(kind, text, text, i), i + |text|, m')
    case Process(kind, m') =>
      var r := ScanProcess(line, i);
      if r.Fail? then NotFound(r.error) else Found(Token(kind, r.scan.raw, r.scan.raw, i), r.scan.index, m')
    case WordHere(m') =>
      var r := ScanWord(line, i, m.inBrackets);
      if r.Fail? then NotFound(r.error) else Found(Token(Word, r.scan.cooked, r.scan.raw, i), r.scan.index, m')
  }

  /** The rest of `arksh_lex_line`, with `tokens` made so far. */
  function LexRest(line: string, i: nat, m: Mode, tokens: seq<Token>): Lexed
    decreases |line| - i
  {
    if i >= |line| then
      if m.inBrackets then LexFailed(OpenConditional)
      else if |tokens| >= MAX_TOKENS then LexFailed(TooManyTokens)
      else Tokens(tokens + [Token(Eof, "", "", |line|)])
    else if IsSpace(line[i]) then LexRest(line, i + 1, m, tokens)
    else if Decide(line, i, m) == FdTooLong then LexFailed(TooLong)
    else if |tokens| >= MAX_TOKENS then LexFailed(TooManyTokens)
    else
      var next := NextToken(line, i, m);
      if next.NotFound? then LexFailed(next.error)
      else
        TokenAdvances(line, i, m);
        LexRest(line, next.end, next.mode, tokens + [next.token])
  }

  /** `arksh_lex_line` */
  function LexLine(line: string): Lexed {
    LexRest(line, 0, START, [])
  }

  // ---------------------------------------------------------------- progress

  lemma {:induction false} WordRestAdvances(line: string, s: Scan, any: bool, conditional: bool)
    ensures var r := WordRest(line, s, any, conditional);
      r.Ok? ==> r.scan.index >= s.index && (any || r.scan.index > s.index)
    decreases |line| - s.index
  {
    if !(s.index >= |line| || (!OpensCommand(line, s.index) && StopsWord(line, s.index, conditional))) {
      var next := WordPiece(line, s);
      if next.Ok? { WordRestAdvances(line, next.scan, true, conditional); }
    }
  }

  /** Every token found takes at least one character, so the main loop ends. */
  lemma TokenAdvances(line: string, i: nat, m: Mode)
    requires i < |line|
    ensures var r := NextToken(line, i, m); r.Found? ==> r.end > i
  {
    WordRestAdvances(line, Scan(i, "", ""), false, m.inBrackets);
  }
}
