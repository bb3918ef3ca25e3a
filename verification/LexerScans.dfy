/**
What words are made of, by recursive descent: quotes, escapes, substitutions with what they
hold, and plain characters. The scans of the lexer, which count nesting and keep a quote state,
stop where these do and cook the same text, as long as it fits their buffers.
*/
module LexerScans {
  import opened Text
  import opened Lexer
  import opened LexerLaws

  /** Where a part of the line ends, and the text it is cooked to. */
  datatype Span = Span(end: nat, text: string)

  predicate Within(line: string, i: nat, r: Option<Span>) { r.Some? ==> i < r.value.end <= |line| }

  function Prefixed(t: string, r: Option<Span>): (r': Option<Span>) {
    if r == None then None else Some(r.value.(text := t + r.value.text))
  }

  /** The contents of quotes and the closing one; a backslash escapes inside double quotes only. */
  function Quoted(line: string, i: nat, q: char): (r: Option<Span>)
    ensures Within(line, i, r) && (r.Some? ==> |r.value.text| < r.value.end - i)
    decreases |line| - i
  {
    if i >= |line| then None
    else if line[i] == q then Some(Span(i + 1, ""))
    else if q == '"' && line[i] == '\\' then
      if i + 1 < |line| then Prefixed([line[i + 1]], Quoted(line, i + 2, q)) else None
    else Prefixed([line[i]], Quoted(line, i + 1, q))
  }

  predicate IsQuote(c: char) { c == '\'' || c == '"' }

  /** The same with the quotes around it. */
  function KeptQuotes(line: string, i: nat): (r: Option<Span>)
    requires i < |line|
    ensures Within(line, i, r)
  {
    var r := Quoted(line, i + 1, line[i]);
    if r == None then None else Some(Span(r.value.end, [line[i]] + (r.value.text + [line[i]])))
  }

  /** The commands in `$(...)` and the closing parenthesis: escapes lose their backslash. */
  function Commands(line: string, i: nat): (r: Option<Span>)
    ensures Within(line, i, r)
    decreases |line| - i, 1
  {
    if i >= |line| then None
    else if line[i] == ')' then Some(Span(i + 1, ")"))
    else
      match CommandItem(line, i)
      case None => None
      case Some(item) => Prefixed(item.text, Commands(line, item.end))
  }

  function CommandItem(line: string, i: nat): (r: Option<Span>)
    requires i < |line|
    ensures Within(line, i, r)
    decreases |line| - i, 0
  {
    if line[i] == '\\' then if i + 1 < |line| then Some(Span(i + 2, [line[i + 1]])) else None
    else if IsQuote(line[i]) then KeptQuotes(line, i)
    else if At(line, i, "$(") then Prefixed("$(", Commands(line, i + 2))
    else Some(Span(i + 1, [line[i]]))
  }

  /** The end of the expression in `$((...))` behind its two parentheses. */
  function Expression(line: string, i: nat): (end: Option<nat>)
    ensures end.Some? ==> i < end.value <= |line|
    decreases |line| - i, 1
  {
    if i >= |line| then None
    else if At(line, i, "))") then Some(i + 2)
    else match ExpressionItem(line, i) case None => None case Some(j) => Expression(line, j)
  }

  function ExpressionItem(line: string, i: nat): (end: Option<nat>)
    requires i < |line|
    ensures end.Some? ==> i < end.value <= |line|
    decreases |line| - i, 0
  {
    if line[i] == '\\' then if i + 1 < |line| then Some(i + 2) else None
    else if IsQuote(line[i]) then match KeptQuotes(line, i) case None => None case Some(r) => Some(r.end)
    else if At(line, i, "$((") then Expression(line, i + 3)
    else Some(i + 1)
  }

  /** The end of the commands in `<(...)` or `>(...)`, where every parenthesis counts. */
  function Processes(line: string, i: nat): (end: Option<nat>)
    ensures end.Some? ==> i < end.value <= |line|
    decreases |line| - i, 1
  {
    if i >= |line| then None
    else if line[i] == ')' then Some(i + 1)
    else match ProcessItem(line, i) case None => None case Some(j) => Processes(line, j)
  }

  function ProcessItem(line: string, i: nat): (end: Option<nat>)
    requires i < |line|
    ensures end.Some? ==> i < end.value <= |line|
    decreases |line| - i, 0
  {
    if line[i] == '\\' then if i + 1 < |line| then Some(i + 2) else None
    else if IsQuote(line[i]) then match KeptQuotes(line, i) case None => None case Some(r) => Some(r.end)
    else if line[i] == '(' then Processes(line, i + 1)
    else Some(i + 1)
  }

  /** One unit of a word. */
  function Unit(line: string, i: nat): (r: Option<Span>)
    requires i < |line|
    ensures Within(line, i, r)
  {
    if At(line, i, "$((") then
      match Expression(line, i + 3) case None => None case Some(j) => Some(Span(j, line[i..j]))
    else if At(line, i, "$(") then Prefixed("$(", Commands(line, i + 2))
    else if line[i] == '\\' then if i + 1 < |line| then Some(Span(i + 2, [line[i + 1]])) else None
    else if IsQuote(line[i]) then Quoted(line, i + 1, line[i])
    else Some(Span(i + 1, [line[i]]))
  }

  // ---------------------------------------------------------------- the scans

  predicate Roomy(s: Scan) { |s.cooked| <= |s.raw| < MAX_TOKEN }

  /** The scan when it has reached `j` and cooked `t` on the way. */
  function To(line: string, s: Scan, j: nat, t: string): (r: Scan)
    requires s.index <= j <= |line|
  {
    Scan(j, s.raw + line[s.index..j], s.cooked + t)
  }

  /** There is room for the part up to `j`, which is cooked to something no longer. */
  predicate Fits(line: string, s: Scan, j: nat, t: string) {
    s.index <= j <= |line| && |t| <= j - s.index && |s.raw| + (j - s.index) < MAX_TOKEN
  }

  lemma ToTwice(line: string, s: Scan, j: nat, t: string, k: nat, u: string)
    requires s.index <= j <= k <= |line|
    ensures To(line, To(line, s, j, t), k, u) == To(line, s, k, t + u)
  {
    assert line[s.index..j] + line[j..k] == line[s.index..k];
    Assoc(s.raw, line[s.index..j], line[j..k]);
    Assoc(s.cooked, t, u);
  }

  lemma ToHere(line: string, s: Scan)
    requires s.index <= |line|
    ensures To(line, s, s.index, "") == s
  {
    assert s.raw + line[s.index..s.index] == s.raw && s.cooked + "" == s.cooked;
  }

  /** Taking the next characters as they stand in the line. */
  lemma PutTo(line: string, s: Scan, raw: string, cooked: string, j: nat)
    requires Roomy(s) && At(line, s.index, raw) && |cooked| <= |raw| && j == s.index + |raw|
    ensures if |s.raw| + |raw| < MAX_TOKEN
            then Put(s, raw, cooked) == Ok(To(line, s, j, cooked)) && Roomy(To(line, s, j, cooked))
            else Put(s, raw, cooked).Fail?
  {
  }

  lemma EscapeTo(line: string, s: Scan, keep: bool, j: nat)
    requires Roomy(s) && At(line, s.index, "\\") && j == s.index + 2
    ensures var t := (if keep then "\\" else "") + if j <= |line| then [line[s.index + 1]] else "";
            if j <= |line| && |s.raw| + 2 < MAX_TOKEN
            then PutEscaped(line, s, keep) == Ok(To(line, s, j, t)) && Roomy(To(line, s, j, t))
            else PutEscaped(line, s, keep).Fail?
  {
    var t, next := if keep then "\\" else "", s.index + 1;
    PutTo(line, s, "\\", t, next);
    if j <= |line| && |s.raw| + 1 < MAX_TOKEN {
      var c, s' := [line[next]], To(line, s, next, t);
      assert At(line, next, c);
      PutTo(line, s', c, c, j);
      ToTwice(line, s, next, t, j, c);
    }
  }

  /** There is an end, and room up to it. */
  predicate Reached(s: Scan, span: Option<Span>) {
    span.Some? && |s.raw| + (span.value.end - s.index) < MAX_TOKEN
  }

  /** The scan ends where the span does, with its text, and fails if there is no span or no room. */
  predicate Ends(line: string, s: Scan, span: Option<Span>, r: Scanned)
    requires s.index <= |line| && (span.Some? ==> s.index <= span.value.end <= |line|)
  {
    if Reached(s, span)
    then |span.value.text| <= span.value.end - s.index && r == Ok(To(line, s, span.value.end, span.value.text))
    else r.Fail?
  }

  lemma CharAt(line: string, i: nat)
    requires i < |line|
    ensures At(line, i, [line[i]])
  {
  }

  /** What is found from `j` on, of a scan that has cooked `t` up to there. */
  lemma EndsOn(line: string, s: Scan, j: nat, t: string, span: Option<Span>, r: Scanned)
    requires s.index < j <= |line| && |t| <= j - s.index && (span.Some? ==> j <= span.value.end <= |line|)
    requires Ends(line, To(line, s, j, t), span, r)
    ensures Ends(line, s, Prefixed(t, span), r)
  {
    if span.Some? { ToTwice(line, s, j, t, span.value.end, span.value.text); }
  }

  lemma {:induction false} QuotedIs(line: string, s: Scan, q: char)
    requires Roomy(s) && IsQuote(q) && s.index <= |line|
    ensures Ends(line, s, Quoted(line, s.index, q), QuotedRest(line, s, q))
    decreases |line| - s.index
  {
    var i := s.index;
    if i < |line| {
      if line[i] == q {
        CharAt(line, i);
        PutTo(line, s, [q], "", i + 1);
      } else if q == '"' && line[i] == '\\' {
        QuotedEscape(line, s, i + 2);
        if i + 1 < |line| && |s.raw| + 2 < MAX_TOKEN {
          var t := [line[i + 1]];
          var s' := To(line, s, i + 2, t);
          QuotedIs(line, s', q);
          EndsOn(line, s, i + 2, t, Quoted(line, i + 2, q), QuotedRest(line, s', q));
        }
      } else {
        CharAt(line, i);
        var t := [line[i]];
        PutTo(line, s, t, t, i + 1);
        if |s.raw| + 1 < MAX_TOKEN {
          var s' := To(line, s, i + 1, t);
          QuotedIs(line, s', q);
          EndsOn(line, s, i + 1, t, Quoted(line, i + 1, q), QuotedRest(line, s', q));
        }
      }
    }
  }

  lemma QuotedEscape(line: string, s: Scan, j: nat)
    requires Roomy(s) && At(line, s.index, "\\") && j == s.index + 2
    ensures if j <= |line| && |s.raw| + 2 < MAX_TOKEN
            then
              var s' := To(line, s, j, [line[s.index + 1]]);
              PutEscaped(line, s, false) == Ok(s') && Roomy(s')
            else PutEscaped(line, s, false).Fail?
  {
    EscapeTo(line, s, false, j);
    if j <= |line| { assert "" + [line[s.index + 1]] == [line[s.index + 1]]; }
  }

  // ---------------------------------------------------------------- command substitution

  /** The scan inside `depth` substitutions, and its result when there are none left. */
  function CommandLater(line: string, s: Scan, depth: nat): (r: Scanned) {
    if depth == 0 then Ok(s) else CommandRest(line, s, NUL, depth)
  }

  /** The scan goes on behind the span inside `later` substitutions, outside quotes; or fails. */
  predicate CommandOn(line: string, s: Scan, quote: char, depth: nat, span: Option<Span>, later: nat)
    requires s.index <= |line| && Within(line, s.index, span)
  {
    var r := CommandRest(line, s, quote, depth);
    if Reached(s, span) then
      |span.value.text| <= span.value.end - s.index
      && r == CommandLater(line, To(line, s, span.value.end, span.value.text), later)
    else r.Fail?
  }

  lemma CommandThen(
      line: string, s: Scan, quote: char, depth: nat, j: nat, t: string, quote': char, depth': nat, span: Option<Span>,
      later: nat)
    requires s.index < j <= |line| && |t| <= j - s.index && Within(line, j, span)
    requires CommandRest(line, s, quote, depth) == CommandRest(line, To(line, s, j, t), quote', depth')
    requires CommandOn(line, To(line, s, j, t), quote', depth', span, later)
    ensures CommandOn(line, s, quote, depth, Prefixed(t, span), later)
  {
    if span.Some? { ToTwice(line, s, j, t, span.value.end, span.value.text); }
  }

  /** One character that is no escape, or an escape. */
  lemma CommandStep(line: string, s: Scan, quote: char, depth: nat, next: nat)
    requires Roomy(s) && s.index < |line| && depth > 0
    requires next == s.index + if Escapes(quote, line[s.index]) then 2 else 1
    ensures var i, r := s.index, CommandRest(line, s, quote, depth);
            if next > |line| || |s.raw| + (next - i) >= MAX_TOKEN then r.Fail?
            else
              var s', depth' := To(line, s, next, [line[next - 1]]), CommandDepth(line, i, quote, depth);
              Roomy(s') && r ==
              if Escapes(quote, line[i]) then CommandRest(line, s', quote, depth)
              else if depth' == 0 then Ok(s') else CommandRest(line, s', NextQuote(quote, line[i]), depth')
  {
    var i := s.index;
    CharAt(line, i);
    if Escapes(quote, line[i]) { QuotedEscape(line, s, next); } else { PutTo(line, s, [line[i]], [line[i]], next); }
  }

  function Closed(q: char, span: Option<Span>): (r: Option<Span>) {
    if span == None then None else Some(span.value.(text := span.value.text + [q]))
  }

  /** Inside quotes, to behind the closing one, which is kept. */
  lemma {:induction false} CommandQuotes(line: string, s: Scan, q: char, depth: nat)
    requires Roomy(s) && IsQuote(q) && s.index <= |line| && depth > 0
    ensures CommandOn(line, s, q, depth, Closed(q, Quoted(line, s.index, q)), depth)
    decreases |line| - s.index
  {
    var i := s.index;
    if i < |line| {
      var next := i + if q == '"' && line[i] == '\\' then 2 else 1;
      CommandStep(line, s, q, depth, next);
      if next <= |line| && |s.raw| + (next - i) < MAX_TOKEN {
        var t := [line[next - 1]];
        var s' := To(line, s, next, t);
        if line[i] == q {
          assert "" + [q] == t;
        } else {
          CommandQuotes(line, s', q, depth);
          var span := Quoted(line, next, q);
          CommandThen(line, s, q, depth, next, t, q, depth, Closed(q, span), depth);
          if span.Some? { Assoc(t, span.value.text, [q]); }
        }
      }
    }
  }

  lemma {:induction false} CommandItemIs(line: string, s: Scan, depth: nat)
    requires Roomy(s) && s.index < |line| && line[s.index] != ')' && depth > 0
    ensures CommandOn(line, s, NUL, depth, CommandItem(line, s.index), depth)
    decreases |line| - s.index, 0
  {
    var i, c := s.index, line[s.index];
    var next := i + if c == '\\' then 2 else 1;
    CommandStep(line, s, NUL, depth, next);
    CharAt(line, i);
    if next <= |line| && |s.raw| + (next - i) < MAX_TOKEN && c != '\\' {
      var s' := To(line, s, next, [c]);
      if IsQuote(c) {
        var span := Quoted(line, next, c);
        CommandQuotes(line, s', c, depth);
        CommandThen(line, s, NUL, depth, next, [c], c, depth, Closed(c, span), depth);
      } else if At(line, i, "$(") {
        CommandNested(line, s, s', next, next + 1, depth);
      }
    }
  }

  lemma {:induction false} CommandNested(line: string, s: Scan, s': Scan, j: nat, k: nat, depth: nat)
    requires Roomy(s) && s.index + 2 <= |line| && depth > 0 && j == s.index + 1 && k == j + 1 && line[j] == '('
    requires s' == To(line, s, j, "$") && Roomy(s')
    requires CommandRest(line, s, NUL, depth) == CommandRest(line, s', NUL, depth + 1)
    ensures CommandOn(line, s, NUL, depth, Prefixed("$(", Commands(line, k)), depth)
    decreases |line| - s.index, 0, 0
  {
    var deeper, span := depth + 1, Commands(line, k);
    CommandParen(line, s', deeper, k);
    if |s'.raw| + 1 < MAX_TOKEN {
      var s'' := To(line, s', k, "(");
      CommandsIs(line, s'', deeper);
      CommandThen(line, s', NUL, deeper, k, "(", NUL, deeper, span, depth);
    }
    CommandThen(line, s, NUL, depth, j, "$", NUL, deeper, Prefixed("(", span), depth);
    if span.Some? { assert "$" + ("(" + span.value.text) == "$(" + span.value.text; }
  }

  /** An opening parenthesis does not count by itself. */
  lemma CommandParen(line: string, s: Scan, depth: nat, next: nat)
    requires Roomy(s) && s.index < |line| && line[s.index] == '(' && depth > 0 && next == s.index + 1
    ensures var r := CommandRest(line, s, NUL, depth);
            if |s.raw| + 1 >= MAX_TOKEN then r.Fail?
            else Roomy(To(line, s, next, "(")) && r == CommandRest(line, To(line, s, next, "("), NUL, depth)
  {
    CommandStep(line, s, NUL, depth, next);
  }

  /** The rest of a substitution is its commands, up to the parenthesis that closes it. */
  lemma {:induction false} CommandsIs(line: string, s: Scan, depth: nat)
    requires Roomy(s) && s.index <= |line| && depth > 0
    ensures CommandOn(line, s, NUL, depth, Commands(line, s.index), depth - 1)
    decreases |line| - s.index, 1
  {
    var i := s.index;
    if i < |line| {
      if line[i] == ')' {
        CommandStep(line, s, NUL, depth, i + 1);
      } else {
        CommandItemIs(line, s, depth);
        var item := CommandItem(line, i);
        if Reached(s, item) {
          var s', j := To(line, s, item.value.end, item.value.text), item.value.end;
          CommandsIs(line, s', depth);
          CommandThen(line, s, NUL, depth, j, item.value.text, NUL, depth, Commands(line, j), depth - 1);
        }
      }
    }
  }

  // ---------------------------------------------------------------- arithmetic expansion

  /** The scan when it has copied the line up to `j`. */
  function Raw(line: string, s: Scan, j: nat): (r: Scan)
    requires s.index <= j <= |line|
  {
    To(line, s, j, line[s.index..j])
  }

  lemma RawTwice(line: string, s: Scan, j: nat, k: nat)
    requires s.index <= j <= k <= |line|
    ensures Raw(line, Raw(line, s, j), k) == Raw(line, s, k)
  {
    ToTwice(line, s, j, line[s.index..j], k, line[j..k]);
    assert line[s.index..j] + line[j..k] == line[s.index..k];
  }

  predicate Room(s: Scan, end: Option<nat>) { end.Some? && |s.raw| + (end.value - s.index) < MAX_TOKEN }

  predicate Ahead(line: string, i: nat, end: Option<nat>) { end.Some? ==> i <= end.value <= |line| }

  function ArithLater(line: string, s: Scan, depth: nat): (r: Scanned) {
    if depth == 0 then Ok(s) else ArithRest(line, s, NUL, depth)
  }

  predicate ArithOn(line: string, s: Scan, quote: char, depth: nat, end: Option<nat>, later: nat)
    requires s.index <= |line| && Ahead(line, s.index, end)
  {
    var r := ArithRest(line, s, quote, depth);
    if Room(s, end) then r == ArithLater(line, Raw(line, s, end.value), later) else r.Fail?
  }

  lemma ArithThen(
      line: string, s: Scan, quote: char, depth: nat, j: nat, quote': char, depth': nat, end: Option<nat>, later: nat)
    requires s.index < j <= |line| && Ahead(line, j, end)
    requires ArithRest(line, s, quote, depth) == ArithRest(line, Raw(line, s, j), quote', depth')
    requires ArithOn(line, Raw(line, s, j), quote', depth', end, later)
    ensures ArithOn(line, s, quote, depth, end, later)
  {
    if end.Some? { RawTwice(line, s, j, end.value); }
  }

  /** How many characters are taken at once, and the nesting behind them. */
  function ArithWidth(line: string, i: nat, quote: char): (n: nat)
    requires i < |line|
  {
    if Escapes(quote, line[i]) then 2
    else if quote == NUL && At(line, i, "$((") then 3
    else if quote == NUL && At(line, i, "))") then 2 else 1
  }

  lemma OpensAt(line: string, i: nat)
    requires i < |line|
    ensures OpensArithmetic(line, i) <==> At(line, i, "$((")
    ensures OpensCommand(line, i) <==> At(line, i, "$(")
    ensures Twice(line, i, ')') <==> At(line, i, "))")
  {
    if OpensArithmetic(line, i) { AtPeek(line, i, "$(("); }
    if At(line, i, "$((") { StandsFirst(line, i, "$(("); }
    if OpensCommand(line, i) { AtPeek(line, i, "$("); }
    if At(line, i, "$(") { StandsFirst(line, i, "$("); }
    if Twice(line, i, ')') { AtPeek(line, i, "))"); }
    if At(line, i, "))") { StandsFirst(line, i, "))"); }
  }

  lemma ArithStep(line: string, s: Scan, quote: char, depth: nat, next: nat)
    requires Roomy(s) && s.index < |line| && depth > 0 && next == s.index + ArithWidth(line, s.index, quote)
    ensures var i, r := s.index, ArithRest(line, s, quote, depth);
            if next > |line| || |s.raw| + (next - i) >= MAX_TOKEN then r.Fail?
            else
              var s' := Raw(line, s, next);
              Roomy(s') && r ==
              if Escapes(quote, line[i]) then ArithRest(line, s', quote, depth)
              else if quote == NUL && At(line, i, "$((") then ArithRest(line, s', quote, depth + 1)
              else if quote == NUL && At(line, i, "))") then ArithLater(line, s', depth - 1)
              else ArithRest(line, s', NextQuote(quote, line[i]), depth)
  {
    var i := s.index;
    OpensAt(line, i);
    CharAt(line, i);
    if Escapes(quote, line[i]) {
      EscapeTo(line, s, true, next);
      if next <= |line| { assert "\\" + [line[i + 1]] == line[i..next]; }
    } else if next <= |line| {
      PutTo(line, s, line[i..next], line[i..next], next);
    }
  }

  lemma {:induction false} ArithQuotes(line: string, s: Scan, q: char, depth: nat)
    requires Roomy(s) && IsQuote(q) && s.index <= |line| && depth > 0
    ensures ArithOn(line, s, q, depth, EndOf(Quoted(line, s.index, q)), depth)
    decreases |line| - s.index
  {
    var i := s.index;
    if i < |line| {
      var next := i + ArithWidth(line, i, q);
      ArithStep(line, s, q, depth, next);
      if next <= |line| && |s.raw| + (next - i) < MAX_TOKEN && line[i] != q {
        var s' := Raw(line, s, next);
        ArithQuotes(line, s', q, depth);
        ArithThen(line, s, q, depth, next, q, depth, EndOf(Quoted(line, next, q)), depth);
      }
    }
  }

  function EndOf(span: Option<Span>): (end: Option<nat>) { if span == None then None else Some(span.value.end) }

  lemma {:induction false} ExpressionItemIs(line: string, s: Scan, depth: nat)
    requires Roomy(s) && s.index < |line| && !At(line, s.index, "))") && depth > 0
    ensures ArithOn(line, s, NUL, depth, ExpressionItem(line, s.index), depth)
    decreases |line| - s.index, 0
  {
    var i, c, deeper := s.index, line[s.index], depth + 1;
    var next := i + ArithWidth(line, i, NUL);
    OpensAt(line, i);
    ArithStep(line, s, NUL, depth, next);
    if next <= |line| && |s.raw| + (next - i) < MAX_TOKEN && c != '\\' {
      var s' := Raw(line, s, next);
      if IsQuote(c) {
        ExpressionQuotes(line, s, s', c, next, depth);
      } else if At(line, i, "$((") {
        ExpressionIs(line, s', deeper, depth);
        ArithThen(line, s, NUL, depth, next, NUL, deeper, Expression(line, next), depth);
      }
    }
  }

  lemma ExpressionQuotes(line: string, s: Scan, s': Scan, q: char, next: nat, depth: nat)
    requires Roomy(s) && s.index < |line| && line[s.index] == q && IsQuote(q) && next == s.index + 1 && depth > 0
    requires s' == Raw(line, s, next) && Roomy(s') && ArithRest(line, s, NUL, depth) == ArithRest(line, s', q, depth)
    ensures ArithOn(line, s, NUL, depth, ExpressionItem(line, s.index), depth)
  {
    ArithQuotes(line, s', q, depth);
    ArithThen(line, s, NUL, depth, next, q, depth, EndOf(Quoted(line, next, q)), depth);
  }

  /** The rest of an expansion is its expression, up to the two parentheses that close it. */
  lemma {:induction false} ExpressionIs(line: string, s: Scan, depth: nat, later: nat)
    requires Roomy(s) && s.index <= |line| && depth > 0 && later == depth - 1
    ensures ArithOn(line, s, NUL, depth, Expression(line, s.index), later)
    decreases |line| - s.index, 1
  {
    var i := s.index;
    if i < |line| {
      if At(line, i, "))") {
        ArithStep(line, s, NUL, depth, i + 2);
      } else {
        ExpressionItemIs(line, s, depth);
        var item := ExpressionItem(line, i);
        if Room(s, item) {
          var s', j := Raw(line, s, item.value), item.value;
          ExpressionIs(line, s', depth, later);
          ArithThen(line, s, NUL, depth, j, NUL, depth, Expression(line, j), later);
        }
      }
    }
  }

  // ---------------------------------------------------------------- process substitution

  /** The scan has copied the line up to `end`, except that the last parenthesis need not be cooked. */
  predicate ProcessDone(line: string, s: Scan, end: nat, r: Scanned)
    requires s.index <= end <= |line|
  {
    r.Ok? && r.scan.index == end && r.scan.raw == s.raw + line[s.index..end]
  }

  predicate ProcessOn(line: string, s: Scan, quote: char, depth: nat, end: Option<nat>, later: nat)
    requires s.index <= |line| && Ahead(line, s.index, end)
  {
    var r := ProcessRest(line, s, quote, depth);
    if !Room(s, end) then r.Fail?
    else if later == 0 then ProcessDone(line, s, end.value, r)
    else r == ProcessRest(line, Raw(line, s, end.value), NUL, later)
  }

  lemma ProcessThen(
      line: string, s: Scan, quote: char, depth: nat, j: nat, quote': char, depth': nat, end: Option<nat>, later: nat)
    requires s.index < j <= |line| && Ahead(line, j, end)
    requires ProcessRest(line, s, quote, depth) == ProcessRest(line, Raw(line, s, j), quote', depth')
    requires ProcessOn(line, Raw(line, s, j), quote', depth', end, later)
    ensures ProcessOn(line, s, quote, depth, end, later)
  {
    if end.Some? { RawTwice(line, s, j, end.value); }
  }

  lemma ProcessStep(line: string, s: Scan, quote: char, depth: nat, next: nat)
    requires Roomy(s) && s.index < |line| && depth > 0
    requires next == s.index + if Escapes(quote, line[s.index]) then 2 else 1
    ensures var i, r := s.index, ProcessRest(line, s, quote, depth);
            if next > |line| || |s.raw| + (next - i) >= MAX_TOKEN then r.Fail?
            else
              var s' := Raw(line, s, next);
              Roomy(s') &&
              if Escapes(quote, line[i]) then r == ProcessRest(line, s', quote, depth)
              else if quote == NUL && line[i] == ')' && depth == 1 then ProcessDone(line, s, next, r)
              else r == ProcessRest(line, s', NextQuote(quote, line[i]), ProcessDepth(line[i], quote, depth))
  {
    var i := s.index;
    CharAt(line, i);
    if Escapes(quote, line[i]) {
      EscapeTo(line, s, true, next);
      if next <= |line| { assert "\\" + [line[i + 1]] == line[i..next]; }
    } else {
      PutTo(line, s, line[i..next], line[i..next], next);
      PutTo(line, s, line[i..next], "", next);
    }
  }

  lemma {:induction false} ProcessQuotes(line: string, s: Scan, q: char, depth: nat)
    requires Roomy(s) && IsQuote(q) && s.index <= |line| && depth > 0
    ensures ProcessOn(line, s, q, depth, EndOf(Quoted(line, s.index, q)), depth)
    decreases |line| - s.index
  {
    var i := s.index;
    if i < |line| {
      var next := i + if Escapes(q, line[i]) then 2 else 1;
      ProcessStep(line, s, q, depth, next);
      if next <= |line| && |s.raw| + (next - i) < MAX_TOKEN && line[i] != q {
        var s' := Raw(line, s, next);
        ProcessQuotes(line, s', q, depth);
        ProcessThen(line, s, q, depth, next, q, depth, EndOf(Quoted(line, next, q)), depth);
      }
    }
  }

  lemma {:induction false} ProcessItemIs(line: string, s: Scan, depth: nat)
    requires Roomy(s) && s.index < |line| && line[s.index] != ')' && depth > 0
    ensures ProcessOn(line, s, NUL, depth, ProcessItem(line, s.index), depth)
    decreases |line| - s.index, 0
  {
    var i, c, deeper := s.index, line[s.index], depth + 1;
    var next := i + if c == '\\' then 2 else 1;
    ProcessStep(line, s, NUL, depth, next);
    if next <= |line| && |s.raw| + (next - i) < MAX_TOKEN && c != '\\' {
      var s' := Raw(line, s, next);
      if IsQuote(c) {
        ProcessQuotes(line, s', c, depth);
        ProcessThen(line, s, NUL, depth, next, c, depth, EndOf(Quoted(line, next, c)), depth);
      } else if c == '(' {
        ProcessesAre(line, s', deeper, depth);
        ProcessThen(line, s, NUL, depth, next, NUL, deeper, Processes(line, next), depth);
      }
    }
  }

  /** The rest of a process substitution is its commands, up to the parenthesis that closes it. */
  lemma {:induction false} ProcessesAre(line: string, s: Scan, depth: nat, later: nat)
    requires Roomy(s) && s.index <= |line| && depth > 0 && later == depth - 1
    ensures ProcessOn(line, s, NUL, depth, Processes(line, s.index), later)
    decreases |line| - s.index, 1
  {
    var i := s.index;
    if i < |line| {
      if line[i] == ')' {
        ProcessStep(line, s, NUL, depth, i + 1);
      } else {
        ProcessItemIs(line, s, depth);
        var item := ProcessItem(line, i);
        if Room(s, item) {
          var s', j := Raw(line, s, item.value), item.value;
          ProcessesAre(line, s', depth, later);
          ProcessThen(line, s, NUL, depth, j, NUL, depth, Processes(line, j), later);
        }
      }
    }
  }
}
