/**
 * Quoting is undone by lexing and then expansion: words built from single-quoted, double-quoted
 * and backslash-escaped segments stand for their text, whatever the shell's state.
 */
module Quoting {
  import opened Text
  import L = Lexer
  import W = WordExpansion
  import F = Fields

  datatype Segment = Single(text: string) | Double(text: string) | Escaped(c: char)

  /** Characters that keep a meaning inside double quotes. */
  predicate Special(c: char) { c == '$' || c == '`' || c == '"' || c == '\\' }

  function DoubleChar(c: char): string { if Special(c) then ['\\', c] else [c] }

  function DoubleBody(t: string): string {
    if t == "" then "" else DoubleChar(t[0]) + DoubleBody(t[1..])
  }

  /** How a segment is written, and the text it stands for. */
  function Written(g: Segment): string {
    match g
    case Single(t) => "'" + t + "'"
    case Double(t) => "\"" + DoubleBody(t) + "\""
    case Escaped(c) => ['\\', c]
  }

  function Meaning(g: Segment): string {
    match g
    case Single(t) => t
    case Double(t) => t
    case Escaped(c) => [c]
  }

  type QuotedWord = seq<Segment>

  /** Single quotes cannot hold a single quote. */
  predicate ValidSegment(g: Segment) { g.Single? ==> '\'' !in g.text }

  predicate Valid(w: QuotedWord) { w == [] || (ValidSegment(w[0]) && Valid(w[1..])) }

  function WordText(w: QuotedWord): string { if w == [] then "" else Written(w[0]) + WordText(w[1..]) }

  function WordMeaning(w: QuotedWord): string { if w == [] then "" else Meaning(w[0]) + WordMeaning(w[1..]) }

  // ---------------------------------------------------------------- lexing

  /** The scan after taking `raw` for `cooked`. */
  function Taken(s: L.Scan, raw: string, cooked: string): L.Scan {
    L.Scan(s.index + |raw|, s.raw + raw, s.cooked + cooked)
  }

  /** There is room for `raw`, and what is cooked is never longer. */
  predicate Fits(s: L.Scan, raw: string) { |s.cooked| <= |s.raw| && |s.raw| + |raw| < MAX_TOKEN }

  predicate From(line: string, i: nat, t: string) { i <= |line| && line[i..] == t }

  lemma TakenTwice(s: L.Scan, r1: string, c1: string, r2: string, c2: string)
    ensures Taken(Taken(s, r1, c1), r2, c2) == Taken(s, r1 + r2, c1 + c2)
  {
    Assoc(s.raw, r1, r2);
    Assoc(s.cooked, c1, c2);
  }

  /** What is read of a text that starts with `t`. */
  lemma FromCut(line: string, i: nat, t: string, rest: string)
    requires From(line, i, t + rest)
    ensures From(line, i + |t|, rest)
    ensures t != "" ==> i < |line| && line[i] == t[0]
    ensures |t| > 1 ==> i + 1 < |line| && line[i + 1] == t[1]
  {
    assert line[i + |t|..] == line[i..][|t|..];
    assert t != "" ==> line[i..][0] == (t + rest)[0];
    assert |t| > 1 ==> line[i..][1] == (t + rest)[1];
  }

  lemma FromNext(line: string, i: nat, t: string, rest: string, next: nat)
    requires From(line, i, t + rest) && next == i + |t|
    ensures From(line, next, rest)
  {
    FromCut(line, i, t, rest);
  }

  lemma {:induction false} SingleLexes(line: string, s: L.Scan, t: string, rest: string)
    requires From(line, s.index, t + ("'" + rest)) && '\'' !in t && Fits(s, t + "'")
    ensures L.QuotedRest(line, s, '\'') == L.Ok(Taken(s, t + "'", t))
    decreases |t|
  {
    if t == "" {
      FromCut(line, s.index, "'", rest) by { assert "" + ("'" + rest) == "'" + rest; }
      assert "" + "'" == "'" && s.cooked + "" == s.cooked;
    } else {
      var c, t' := t[0], t[1..];
      assert t == [c] + t';
      Assoc([c], t', "'" + rest);
      FromCut(line, s.index, [c], t' + ("'" + rest));
      var next := Taken(s, [c], [c]);
      SingleLexes(line, next, t', rest);
      TakenTwice(s, [c], [c], t' + "'", t');
      Assoc([c], t', "'");
    }
  }

  lemma DoubleCharLexes(line: string, s: L.Scan, c: char, rest: string)
    requires From(line, s.index, DoubleChar(c) + rest) && Fits(s, DoubleChar(c))
    ensures var next := Taken(s, DoubleChar(c), [c]);
      From(line, next.index, rest) && L.QuotedRest(line, s, '"') == L.QuotedRest(line, next, '"')
  {
    var d := DoubleChar(c);
    FromCut(line, s.index, d, rest);
    if Special(c) {
      assert line[s.index + 1] == d[1];
      TakenTwice(s, "\\", "", [c], [c]);
      assert "\\" + [c] == d && "" + [c] == [c];
    }
  }

  /** The first character of a body, then the rest. */
  lemma DoubleFirst(t: string, rest: string)
    requires t != ""
    ensures DoubleBody(t) + rest == DoubleChar(t[0]) + (DoubleBody(t[1..]) + rest)
  {
    Assoc(DoubleChar(t[0]), DoubleBody(t[1..]), rest);
  }

  lemma TextFirst(text: string, t: string)
    requires t != ""
    ensures text + [t[0]] + t[1..] == text + t
  {
    Assoc(text, [t[0]], t[1..]);
    assert t == [t[0]] + t[1..];
  }

  lemma {:induction false} DoubleLexes(line: string, s: L.Scan, t: string, rest: string)
    requires From(line, s.index, DoubleBody(t) + ("\"" + rest)) && Fits(s, DoubleBody(t) + "\"")
    ensures L.QuotedRest(line, s, '"') == L.Ok(Taken(s, DoubleBody(t) + "\"", t))
    decreases |t|
  {
    if t == "" {
      FromCut(line, s.index, "\"", rest) by { assert "" + ("\"" + rest) == "\"" + rest; }
      assert "" + "\"" == "\"" && s.cooked + "" == s.cooked;
    } else {
      var c, t' := t[0], t[1..];
      var d, body := DoubleChar(c), DoubleBody(t');
      assert t == [c] + t';
      Assoc(d, body, "\"" + rest);
      DoubleCharLexes(line, s, c, body + ("\"" + rest));
      DoubleLexes(line, Taken(s, d, [c]), t', rest);
      TakenTwice(s, d, [c], body + "\"", t');
      Assoc(d, body, "\"");
    }
  }

  /** A segment is one round of the word scanner. */
  lemma SegmentLexes(line: string, s: L.Scan, g: Segment, rest: string)
    requires From(line, s.index, Written(g) + rest) && Fits(s, Written(g)) && ValidSegment(g)
    ensures s.index < |line| && L.WordPiece(line, s) == L.Ok(Taken(s, Written(g), Meaning(g)))
    ensures !L.OpensCommand(line, s.index) && !L.StopsWord(line, s.index, false)
    ensures line[s.index] in "'\"\\"
  {
    FromCut(line, s.index, Written(g), rest);
    match g
    case Escaped(c) =>
      assert line[s.index + 1] == c;
      TakenTwice(s, "\\", "", [c], [c]);
      assert "\\" + [c] == Written(g) && "" + [c] == [c];
    case Single(t) =>
      OpenQuoted(line, s, '\'', t, t, rest);
      SingleLexes(line, Taken(s, "'", ""), t, rest);
    case Double(t) =>
      OpenQuoted(line, s, '"', DoubleBody(t), t, rest);
      DoubleLexes(line, Taken(s, "\"", ""), t, rest);
  }

  /** The opening quote is taken, and the body is what is left. */
  lemma OpenQuoted(line: string, s: L.Scan, q: char, body: string, t: string, rest: string)
    requires From(line, s.index, [q] + body + [q] + rest)
    ensures From(line, Taken(s, [q], "").index, body + ([q] + rest))
    ensures Taken(Taken(s, [q], ""), body + [q], t) == Taken(s, [q] + body + [q], t)
  {
    assert [q] + body + [q] + rest == [q] + (body + ([q] + rest));
    FromCut(line, s.index, [q], body + ([q] + rest));
    TakenTwice(s, [q], "", body + [q], t);
    assert [q] + body + [q] == [q] + (body + [q]) && "" + t == t;
  }

  predicate EndsWord(rest: string) { rest == "" || IsSpace(rest[0]) }

  lemma {:induction false} WordLexes(line: string, s: L.Scan, w: QuotedWord, any: bool, rest: string)
    requires From(line, s.index, WordText(w) + rest) && Fits(s, WordText(w)) && Valid(w) && EndsWord(rest)
    requires any || w != []
    ensures L.WordRest(line, s, any, false) == L.Ok(Taken(s, WordText(w), WordMeaning(w)))
    decreases |w|
  {
    if w == [] {
      FromCut(line, s.index, "", rest);
      assert rest != "" ==> line[s.index..][0] == rest[0];
      assert s.raw + "" == s.raw && s.cooked + "" == s.cooked;
    } else {
      var g, w' := w[0], w[1..];
      var next := Taken(s, Written(g), Meaning(g));
      Assoc(Written(g), WordText(w'), rest);
      SegmentLexes(line, s, g, WordText(w') + rest);
      FromCut(line, s.index, Written(g), WordText(w') + rest);
      MeaningIsShorter(g);
      WordLexes(line, next, w', true, rest);
      TakenTwice(s, Written(g), Meaning(g), WordText(w'), WordMeaning(w'));
    }
  }

  lemma {:induction false} BodyIsLonger(t: string)
    ensures |DoubleBody(t)| >= |t|
  {
    if t != "" { BodyIsLonger(t[1..]); }
  }

  lemma MeaningIsShorter(g: Segment)
    ensures |Meaning(g)| < |Written(g)|
  {
    if g.Double? { BodyIsLonger(g.text); }
  }

  // ---------------------------------------------------------------- several words

  /** The words of a command line, one blank between them. */
  function LineText(words: seq<QuotedWord>): string {
    if words == [] then ""
    else if |words| == 1 then WordText(words[0])
    else WordText(words[0]) + (" " + LineText(words[1..]))
  }

  /** The tokens of the words when the line starts at `i`. */
  function WordTokens(words: seq<QuotedWord>, i: nat): seq<L.Token> {
    if words == [] then []
    else
      var t := WordText(words[0]);
      [L.Token(L.Word, WordMeaning(words[0]), t, i)] + WordTokens(words[1..], i + |t| + 1)
  }

  predicate Proper(w: QuotedWord) { w != [] && Valid(w) && |WordText(w)| < MAX_TOKEN }

  lemma QuoteStartsWord(line: string, i: nat, m: L.Mode)
    requires i < |line| && line[i] in "'\"\\" && !m.inBrackets
    ensures !IsSpace(line[i]) && L.Decide(line, i, m).WordHere? && !L.Decide(line, i, m).mode.inBrackets
  {
  }

  lemma WordStartsHere(line: string, i: nat, m: L.Mode, w: QuotedWord, rest: string)
    requires From(line, i, WordText(w) + rest) && Proper(w) && !m.inBrackets
    ensures i < |line| && !IsSpace(line[i]) && L.Decide(line, i, m).WordHere? && !L.Decide(line, i, m).mode.inBrackets
  {
    Assoc(Written(w[0]), WordText(w[1..]), rest);
    SegmentLexes(line, L.Scan(i, "", ""), w[0], WordText(w[1..]) + rest);
    QuoteStartsWord(line, i, m);
  }

  lemma TokenLexes(line: string, i: nat, m: L.Mode, w: QuotedWord, rest: string) returns (m': L.Mode)
    requires From(line, i, WordText(w) + rest) && EndsWord(rest) && Proper(w) && !m.inBrackets
    ensures i < |line| && !IsSpace(line[i]) && L.Decide(line, i, m).WordHere?
    ensures L.NextToken(line, i, m) == L.Found(L.Token(L.Word, WordMeaning(w), WordText(w), i), i + |WordText(w)|, m')
    ensures !m'.inBrackets
  {
    WordStartsHere(line, i, m, w, rest);
    m' := L.Decide(line, i, m).mode;
    ScanOfWord(line, i, w, rest);
  }

  lemma ScanOfWord(line: string, i: nat, w: QuotedWord, rest: string)
    requires From(line, i, WordText(w) + rest) && EndsWord(rest) && Proper(w)
    ensures L.ScanWord(line, i, false) == L.Ok(L.Scan(i + |WordText(w)|, WordText(w), WordMeaning(w)))
  {
    WordLexes(line, L.Scan(i, "", ""), w, false, rest);
    assert "" + WordText(w) == WordText(w) && "" + WordMeaning(w) == WordMeaning(w);
  }

  /** A word and, unless the line ends, the blank after it are one or two rounds of the lexer. */
  lemma StepLexes(
      line: string, i: nat, m: L.Mode, w: QuotedWord, rest: string, tokens: seq<L.Token>, next: nat)
      returns (m': L.Mode)
    requires From(line, i, WordText(w) + rest) && Proper(w) && !m.inBrackets && |tokens| < L.MAX_TOKENS
    requires rest == "" || rest[0] == ' '
    requires next == i + |WordText(w)| + if rest == "" then 0 else 1
    ensures !m'.inBrackets && next <= |line| && line[next..] == if rest == "" then "" else rest[1..]
    ensures L.LexRest(line, i, m, tokens) ==
            L.LexRest(line, next, m', tokens + [L.Token(L.Word, WordMeaning(w), WordText(w), i)])
  {
    var end, token := i + |WordText(w)|, L.Token(L.Word, WordMeaning(w), WordText(w), i);
    m' := TokenLexes(line, i, m, w, rest);
    FromNext(line, i, WordText(w), rest, end);
    WordRound(line, i, m, tokens, token, end, m');
    if rest != "" { BlankLexes(line, end, m', rest, tokens + [token], next); }
  }

  lemma WordRound(line: string, i: nat, m: L.Mode, tokens: seq<L.Token>, token: L.Token, end: nat, m': L.Mode)
    requires i < |line| && !IsSpace(line[i]) && L.Decide(line, i, m).WordHere? && |tokens| < L.MAX_TOKENS
    requires L.NextToken(line, i, m) == L.Found(token, end, m')
    ensures L.LexRest(line, i, m, tokens) == L.LexRest(line, end, m', tokens + [token])
  {
  }

  lemma BlankLexes(line: string, i: nat, m: L.Mode, rest: string, tokens: seq<L.Token>, next: nat)
    requires From(line, i, rest) && rest != "" && rest[0] == ' ' && next == i + 1
    ensures next <= |line| && line[next..] == rest[1..]
    ensures L.LexRest(line, i, m, tokens) == L.LexRest(line, next, m, tokens)
  {
    assert rest == [' '] + rest[1..];
    FromCut(line, i, [' '], rest[1..]);
  }

  lemma FirstToken(words: seq<QuotedWord>, i: nat, next: nat)
    requires words != [] && next == i + |WordText(words[0])| + (if |words| == 1 then 0 else 1)
    ensures WordTokens(words, i) ==
            [L.Token(L.Word, WordMeaning(words[0]), WordText(words[0]), i)] + WordTokens(words[1..], next)
  {
    if |words| == 1 { assert words[1..] == []; }
  }

  lemma {:induction false} LineLexes(line: string, i: nat, words: seq<QuotedWord>, m: L.Mode, tokens: seq<L.Token>)
    requires From(line, i, LineText(words)) && !m.inBrackets && |tokens| + |words| < L.MAX_TOKENS
    requires forall k :: 0 <= k < |words| ==> Proper(words[k])
    ensures L.LexRest(line, i, m, tokens) == L.Tokens(tokens + WordTokens(words, i) + [L.Token(L.Eof, "", "", |line|)])
    decreases |words|
  {
    if words == [] {
      assert tokens + [] == tokens;
    } else {
      var w, words' := words[0], words[1..];
      var token := L.Token(L.Word, WordMeaning(w), WordText(w), i);
      var rest := if words' == [] then "" else " " + LineText(words');
      assert words' == [] ==> WordText(w) + "" == WordText(w);
      var next := i + |WordText(w)| + (if words' == [] then 0 else 1);
      var m' := StepLexes(line, i, m, w, rest, tokens, next);
      assert From(line, next, LineText(words'));
      LineLexes(line, next, words', m', tokens + [token]);
      FirstToken(words, i, next);
      Assoc(tokens, [token], WordTokens(words', next));
    }
  }

  // ---------------------------------------------------------------- expansion

  /** Buffers to which only quoted text has been added. */
  predicate Plain(b: W.Buffers) {
    |b.flags| == |b.text| < MAX_TOKEN && |b.pattern| <= 2 * |b.text| && !b.hasGlob
      && forall k :: 0 <= k < |b.flags| ==> !b.flags[k]
  }

  lemma AppendPlain(b: W.Buffers, t: string)
    requires Plain(b) && |b.text| + |t| < MAX_TOKEN
    ensures var r := W.Append(b, t, false, false);
      r.Done? && Plain(r.buffers) && r.buffers.text == b.text + t && r.buffers.sawQuote == b.sawQuote
  {
    W.PatternOfText(t, false);
  }

  /** From `b` at `i` the expander reaches `b'` at `j` outside quotes, having added `t`. */
  predicate Adds(
      env: W.Env, mode: W.ExpandMode, raw: string, i: nat, quote: char, b: W.Buffers, j: nat, b': W.Buffers, t: string)
  {
    W.ExpandRest(env, mode, raw, i, quote, b) == W.ExpandRest(env, mode, raw, j, W.NUL, b')
    && Plain(b') && b'.text == b.text + t && (b.sawQuote ==> b'.sawQuote)
  }

  lemma {:induction false} SingleExpands(
      env: W.Env, mode: W.ExpandMode, raw: string, i: nat, b: W.Buffers, t: string, rest: string, j: nat)
      returns (b': W.Buffers)
    requires From(raw, i, t + ("'" + rest)) && '\'' !in t && Plain(b) && |b.text| + |t| < MAX_TOKEN && j == i + |t| + 1
    ensures Adds(env, mode, raw, i, '\'', b, j, b', t)
    decreases |t|
  {
    if t == "" {
      FromCut(raw, i, "'", rest) by { assert "" + ("'" + rest) == "'" + rest; }
      assert raw[i] == '\'' && b.text + "" == b.text;
      b' := b;
    } else {
      var c, t' := t[0], t[1..];
      var next := i + 1;
      assert t + ("'" + rest) == [c] + (t' + ("'" + rest)) by { assert t == [c] + t'; Assoc([c], t', "'" + rest); }
      FromCut(raw, i, [c], t' + ("'" + rest));
      AppendPlain(b, [c]);
      var b1 := W.Append(b, [c], false, false).buffers;
      b' := SingleExpands(env, mode, raw, next, b1, t', rest, j);
      TextFirst(b.text, t);
    }
  }

  lemma DoubleCharExpands(env: W.Env, raw: string, i: nat, b: W.Buffers, c: char, rest: string, next: nat)
    requires From(raw, i, DoubleChar(c) + rest) && next == i + |DoubleChar(c)|
    ensures i < next <= |raw| && From(raw, next, rest)
    ensures W.StepDouble(env, raw, i, b) == W.Advance(W.Append(b, [c], false, false), next, '"')
  {
    var d := DoubleChar(c);
    FromCut(raw, i, d, rest);
    if Special(c) { assert raw[i + 1] == d[1]; }
  }

  lemma {:induction false} DoubleExpands(
      env: W.Env, mode: W.ExpandMode, raw: string, i: nat, b: W.Buffers, t: string, rest: string, j: nat)
      returns (b': W.Buffers)
    requires From(raw, i, DoubleBody(t) + ("\"" + rest)) && Plain(b) && |b.text| + |t| < MAX_TOKEN
    requires j == i + |DoubleBody(t)| + 1
    ensures Adds(env, mode, raw, i, '"', b, j, b', t)
    decreases |t|
  {
    if t == "" {
      FromCut(raw, i, "\"", rest) by { assert "" + ("\"" + rest) == "\"" + rest; }
      assert raw[i] == '"' && b.text + "" == b.text;
      b' := b;
    } else {
      var c, t' := t[0], t[1..];
      var next := i + |DoubleChar(c)|;
      DoubleFirst(t, "\"" + rest);
      DoubleCharExpands(env, raw, i, b, c, DoubleBody(t') + ("\"" + rest), next);
      AppendPlain(b, [c]);
      var b1 := W.Append(b, [c], false, false).buffers;
      b' := DoubleExpands(env, mode, raw, next, b1, t', rest, j);
      TextFirst(b.text, t);
    }
  }

  lemma EscapeExpands(
      env: W.Env, mode: W.ExpandMode, raw: string, i: nat, b: W.Buffers, c: char, rest: string, j: nat)
      returns (b': W.Buffers)
    requires From(raw, i, ['\\', c] + rest) && Plain(b) && |b.text| + 1 < MAX_TOKEN && j == i + 2
    ensures Adds(env, mode, raw, i, W.NUL, b, j, b', [c])
  {
    FromCut(raw, i, ['\\', c], rest);
    assert raw[i] == '\\' && raw[i + 1] == c;
    AppendPlain(b, [c]);
    b' := W.Append(b, [c], false, false).buffers;
  }

  lemma QuoteOpens(
      env: W.Env, mode: W.ExpandMode, raw: string, i: nat, b: W.Buffers, q: char, body: string, rest: string, next: nat)
    requires From(raw, i, [q] + body + [q] + rest) && (q == '\'' || q == '"') && next == i + 1
    ensures From(raw, next, body + ([q] + rest))
    ensures W.ExpandRest(env, mode, raw, i, W.NUL, b) ==
            W.ExpandRest(env, mode, raw, next, q, b.(sawQuote := true, begun := true))
  {
    assert [q] + body + [q] + rest == [q] + (body + ([q] + rest));
    FromCut(raw, i, [q], body + ([q] + rest));
  }

  /** A segment adds its text and leaves a trace: some text, or the mark of an opened quote. */
  lemma SegmentExpands(
      env: W.Env, mode: W.ExpandMode, raw: string, i: nat, b: W.Buffers, g: Segment, rest: string, j: nat)
      returns (b': W.Buffers)
    requires From(raw, i, Written(g) + rest) && ValidSegment(g) && Plain(b) && |b.text| + |Meaning(g)| < MAX_TOKEN
    requires j == i + |Written(g)|
    ensures Adds(env, mode, raw, i, W.NUL, b, j, b', Meaning(g))
    ensures b'.text != "" || b'.sawQuote
  {
    var inside, next := b.(sawQuote := true, begun := true), i + 1;
    match g
    case Escaped(c) =>
      b' := EscapeExpands(env, mode, raw, i, b, c, rest, j);
    case Single(t) =>
      QuoteOpens(env, mode, raw, i, b, '\'', t, rest, next);
      b' := SingleExpands(env, mode, raw, next, inside, t, rest, j);
    case Double(t) =>
      QuoteOpens(env, mode, raw, i, b, '"', DoubleBody(t), rest, next);
      b' := DoubleExpands(env, mode, raw, next, inside, t, rest, j);
  }

  lemma {:induction false} WordExpands(
      env: W.Env, mode: W.ExpandMode, raw: string, i: nat, b: W.Buffers, w: QuotedWord) returns (b': W.Buffers)
    requires From(raw, i, WordText(w)) && Valid(w) && Plain(b) && |b.text| + |WordMeaning(w)| < MAX_TOKEN
    requires w != [] || b.text != "" || b.sawQuote
    ensures W.ExpandRest(env, mode, raw, i, W.NUL, b) == W.Done(b')
    ensures Plain(b') && b'.text == b.text + WordMeaning(w) && (b'.text != "" || b'.sawQuote)
    decreases |w|
  {
    if w == [] {
      b' := b;
      assert b.text + "" == b.text;
    } else {
      var next := i + |Written(w[0])|;
      FirstOf(raw, i, w, next);
      FirstMeaning(b.text, w);
      var b1 := SegmentExpands(env, mode, raw, i, b, w[0], WordText(w[1..]), next);
      b' := WordExpands(env, mode, raw, next, b1, w[1..]);
    }
  }

  /** The first segment of a word, and what is left of it. */
  lemma FirstOf(raw: string, i: nat, w: QuotedWord, next: nat)
    requires w != [] && From(raw, i, WordText(w)) && Valid(w) && next == i + |Written(w[0])|
    ensures From(raw, i, Written(w[0]) + WordText(w[1..])) && From(raw, next, WordText(w[1..]))
  {
    FromNext(raw, i, Written(w[0]), WordText(w[1..]), next);
  }

  lemma FirstMeaning(text: string, w: QuotedWord)
    requires w != []
    ensures text + Meaning(w[0]) + WordMeaning(w[1..]) == text + WordMeaning(w)
    ensures |WordMeaning(w)| == |Meaning(w[0])| + |WordMeaning(w[1..])|
  {
    Assoc(text, Meaning(w[0]), WordMeaning(w[1..]));
  }

  lemma {:induction false} WordMeaningIsShorter(w: QuotedWord)
    ensures |WordMeaning(w)| <= |WordText(w)|
  {
    if w != [] {
      MeaningIsShorter(w[0]);
      WordMeaningIsShorter(w[1..]);
    }
  }

  /** A quoted word expands to exactly its text as one value, in every mode and every shell. */
  lemma QuotedWordExpands(env: W.Env, mode: W.ExpandMode, w: QuotedWord, max: nat)
    requires Proper(w) && max > 0
    ensures W.ExpandWord(env, mode, WordText(w), max) == W.Values([WordMeaning(w)])
  {
    var raw := WordText(w);
    assert raw[0..] == raw && raw[0] == Written(w[0])[0];
    WordMeaningIsShorter(w);
    var b := WordExpands(env, mode, raw, 0, W.EMPTY, w);
    assert "" + WordMeaning(w) == WordMeaning(w);
    F.LiteralIsOneField(b.text, b.flags, b.sawQuote, W.Separators(env));
  }

  /**
   * A command line of quoted words lexes to one word token each, and every one of them expands to
   * the text it stands for.
   */
  lemma QuotingRoundTrip(env: W.Env, mode: W.ExpandMode, words: seq<QuotedWord>, max: nat)
    requires |words| < L.MAX_TOKENS && max > 0
    requires forall k :: 0 <= k < |words| ==> Proper(words[k])
    ensures L.LexLine(LineText(words)) == L.Tokens(WordTokens(words, 0) + [L.Token(L.Eof, "", "", |LineText(words)|)])
    ensures |WordTokens(words, 0)| == |words|
    ensures forall k :: 0 <= k < |words| ==>
      W.ExpandWord(env, mode, WordTokens(words, 0)[k].raw, max) == W.Values([WordMeaning(words[k])])
  {
    var line := LineText(words);
    assert line[0..] == line;
    LineLexes(line, 0, words, L.START, []);
    assert [] + WordTokens(words, 0) == WordTokens(words, 0);
    forall k | 0 <= k < |words|
      ensures |WordTokens(words, 0)| == |words|
      ensures W.ExpandWord(env, mode, WordTokens(words, 0)[k].raw, max) == W.Values([WordMeaning(words[k])])
    {
      TokenOfWord(words, 0, k);
      QuotedWordExpands(env, mode, words[k], max);
    }
  }

  lemma {:induction false} TokenOfWord(words: seq<QuotedWord>, i: nat, k: nat)
    requires k < |words|
    ensures |WordTokens(words, i)| == |words| && WordTokens(words, i)[k].raw == WordText(words[k])
    decreases |words|
  {
    var next := i + |WordText(words[0])| + 1;
    if |words| > 1 { TokenOfWord(words[1..], next, if k > 0 then k - 1 else 0); }
  }

  // ---------------------------------------------------------------- the usual way to quote a string

  /** Single quotes around `s`, each quote in it written as quote, backslash, quote, quote. */
  function ShellQuote(s: string): string { "'" + QuoteBody(s) + "'" }

  function QuoteBody(s: string): string {
    if s == "" then "" else (if s[0] == '\'' then "'\\''" else [s[0]]) + QuoteBody(s[1..])
  }

  /** The segments of `ShellQuote(done + s)`, where `done` holds no quote. */
  function QuoteSegments(done: string, s: string): QuotedWord
    decreases |s|
  {
    if s == "" then [Single(done)]
    else if s[0] == '\'' then [Single(done), Escaped('\'')] + QuoteSegments("", s[1..])
    else QuoteSegments(done + [s[0]], s[1..])
  }

  /** `w` is a word for the text `done + s` whose first segment holds `done` and more. */
  predicate Quotes(w: QuotedWord, done: string, s: string) {
    w != [] && Valid(w) && WordMeaning(w) == done + s && WordText(w) == "'" + (done + (QuoteBody(s) + "'"))
  }

  lemma QuoteEnd(done: string)
    requires '\'' !in done
    ensures Quotes([Single(done)], done, "")
  {
    var w := [Single(done)];
    assert w[1..] == [];
    assert WordMeaning(w) == done + "";
    assert QuoteBody("") + "'" == "'";
    assert WordText(w) == "'" + done + "'" + "" == "'" + (done + "'");
  }

  lemma QuoteMark(done: string, s: string, rest: QuotedWord)
    requires '\'' !in done && Quotes(rest, "", s)
    ensures Quotes([Single(done), Escaped('\'')] + rest, done, "'" + s)
  {
    var w := [Single(done), Escaped('\'')] + rest;
    TwoSegments(Single(done), Escaped('\''), rest);
    QuoteWhole(s);
    var body := QuoteBody(s) + "'";
    assert QuoteBody("'" + s) + "'" == "'\\''" + body by {
      assert ("'" + s)[0] == '\'' && ("'" + s)[1..] == s;
      Assoc("'\\''", QuoteBody(s), "'");
    }
    MarkText(done, body, "'\\''" + body);
  }

  lemma TwoSegments(g: Segment, h: Segment, rest: QuotedWord)
    ensures WordText([g, h] + rest) == Written(g) + (Written(h) + WordText(rest))
    ensures WordMeaning([g, h] + rest) == Meaning(g) + (Meaning(h) + WordMeaning(rest))
    ensures Valid([g, h] + rest) == (ValidSegment(g) && ValidSegment(h) && Valid(rest))
  {
    var w := [g, h] + rest;
    assert w[1..] == [h] + rest && w[1..][1..] == rest;
  }

  lemma MarkText(done: string, body: string, whole: string)
    requires whole == "'\\''" + body
    ensures "'" + done + "'" + (['\\', '\''] + ("'" + body)) == "'" + (done + whole)
  {
  }

  lemma QuoteChar(done: string, s: string, w: QuotedWord)
    requires s != "" && s[0] != '\'' && Quotes(w, done + [s[0]], s[1..])
    ensures Quotes(w, done, s)
  {
    TextFirst(done, s);
    Assoc([s[0]], QuoteBody(s[1..]), "'");
    Assoc(done, [s[0]], QuoteBody(s[1..]) + "'");
  }

  lemma {:induction false} SegmentsOfQuote(done: string, s: string)
    requires '\'' !in done
    ensures Quotes(QuoteSegments(done, s), done, s)
    decreases |s|
  {
    if s == "" {
      QuoteEnd(done);
    } else if s[0] == '\'' {
      SegmentsOfQuote("", s[1..]);
      QuoteMark(done, s[1..], QuoteSegments("", s[1..]));
      assert s == "'" + s[1..];
    } else {
      SegmentsOfQuote(done + [s[0]], s[1..]);
      QuoteChar(done, s, QuoteSegments(done + [s[0]], s[1..]));
    }
  }

  lemma QuoteWhole(s: string)
    ensures "" + s == s && "" + (QuoteBody(s) + "'") == QuoteBody(s) + "'"
    ensures "'" + (QuoteBody(s) + "'") == ShellQuote(s)
  {
  }

  /** A quoted word alone on a line. */
  lemma QuotedWordLexes(w: QuotedWord)
    requires Proper(w)
    ensures L.LexLine(WordText(w)) ==
            L.Tokens([L.Token(L.Word, WordMeaning(w), WordText(w), 0), L.Token(L.Eof, "", "", |WordText(w)|)])
  {
    var line := WordText(w);
    assert line[0..] == line && LineText([w]) == line;
    LineLexes(line, 0, [w], L.START, []);
    FirstToken([w], 0, |WordText(w)|);
    assert [w][1..] == [];
  }

  /** Quoting any string gives one word token, and expanding it gives the string back as one field. */
  lemma ShellQuoteRoundTrip(env: W.Env, mode: W.ExpandMode, s: string, max: nat)
    requires |ShellQuote(s)| < MAX_TOKEN && max > 0
    ensures L.LexLine(ShellQuote(s)) ==
            L.Tokens([L.Token(L.Word, s, ShellQuote(s), 0), L.Token(L.Eof, "", "", |ShellQuote(s)|)])
    ensures W.ExpandWord(env, mode, ShellQuote(s), max) == W.Values([s])
  {
    var w := QuoteSegments("", s);
    SegmentsOfQuote("", s);
    QuoteWhole(s);
    QuotedWordLexes(w);
    QuotedWordExpands(env, mode, w, max);
  }
}
