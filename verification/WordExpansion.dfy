/**
 * Word expansion: one pass over the raw text of a token that removes quotes, puts in what
 * substitutions give, and keeps a glob pattern beside the text; then pathname expansion and
 * field splitting.
 */
module WordExpansion {
  import opened Text
  import opened Fields

  const MAX_PATTERN: nat := 2 * MAX_TOKEN
  const NUL: char := '\0'

  datatype ExpandMode = Command | CommandName | Conditional | ObjectSelector | ObjectArgument | RedirectTarget

  datatype ExpandError =
    | TextTooLong | PatternTooLong | DanglingEscape | OpenQuote
    | SubstitutionFailed | GlobFailed | TooManyFields | Misplaced

  /**
   * What the `$` at a position stands for: the text, how many characters it spans after the `$`, and
   * whether it is arithmetic.
   */
  datatype Substitution = Substituted(text: string, span: nat, arithmetic: bool) | NoSubstitution

  datatype GlobResult = Matches(names: seq<string>) | GlobError

  /** The shell around the expander: home directory, field separators, substitutions and files. */
  datatype Env = Env(
    home: string,
    ifs: Option<string>,
    substitute: (string, nat) -> Substitution,
    process: string -> Option<string>,
    glob: (string, nat) -> GlobResult)

  /** The buffers being filled. */
  datatype Buffers = Buffers(
    text: string, flags: seq<bool>, pattern: string, hasGlob: bool, sawQuote: bool, begun: bool)

  const EMPTY: Buffers := Buffers("", [], "", false, false, false)

  datatype Expanded = Done(buffers: Buffers) | Failed(error: ExpandError)

  datatype Values = Values(values: seq<string>) | NoValues(error: ExpandError)

  predicate IsMeta(c: char) { c == '*' || c == '?' || c == '[' || c == ']' }

  /** What `append_pattern_text` adds for one character. */
  function PatternOf(c: char, bare: bool): string {
    if bare && IsMeta(c) then [c] else if c == '\\' || IsMeta(c) then ['\\', c] else [c]
  }

  function PatternText(t: string, bare: bool): string {
    if t == "" then "" else PatternOf(t[0], bare) + PatternText(t[1..], bare)
  }

  predicate HasMeta(t: string) { exists k :: 0 <= k < |t| && IsMeta(t[k]) }

  /** Add `t` to the text and to the pattern. */
  function Append(b: Buffers, t: string, bare: bool, split: bool): Expanded {
    var pattern := PatternText(t, bare);
    if |b.text| + |t| >= MAX_TOKEN then Failed(TextTooLong)
    else if |b.pattern| + |pattern| >= MAX_PATTERN then Failed(PatternTooLong)
    else
      Done(Buffers(b.text + t, b.flags + seq(|t|, _ => split), b.pattern + pattern,
                   b.hasGlob || (bare && HasMeta(t)), b.sawQuote, true))
  }

  /** The characters that a backslash escapes inside double quotes. */
  predicate EscapedInQuotes(c: char) { c == '$' || c == '`' || c == '"' || c == '\\' || c == '\n' }

  /** What a backslash and `c` stand for inside double quotes. */
  function InQuotes(c: char): string { if EscapedInQuotes(c) then [c] else ['\\', c] }

  /** One round of `expand_raw_token`: the buffers after it, the next index and the quote state. */
  datatype Step = Next(buffers: Buffers, index: nat, quote: char) | Stop(error: ExpandError)

  function Advance(r: Expanded, index: nat, quote: char): Step {
    if r.Failed? then Stop(r.error) else Next(r.buffers, index, quote)
  }

  function Dollar(env: Env, raw: string, i: nat, quote: char, b: Buffers, bare: bool): Step {
    match env.substitute(raw, i)
    case NoSubstitution => Stop(SubstitutionFailed)
    case Substituted(text, span, arithmetic) =>
      Advance(Append(b, text, bare, quote == NUL && !arithmetic), i + span + 1, quote)
  }

  function StepUnquoted(env: Env, mode: ExpandMode, raw: string, i: nat, b: Buffers): Step
    requires i < |raw|
  {
    var c, bare := raw[i], mode == Command;
    if c == '\'' || c == '"' then Next(b.(sawQuote := true, begun := true), i + 1, c)
    else if c == '\\' then
      if i + 1 >= |raw| then Stop(DanglingEscape) else Advance(Append(b, [raw[i + 1]], false, false), i + 2, NUL)
    else if c == '~' && !b.begun && b.text == "" && (i + 1 >= |raw| || raw[i + 1] == '/') then
      Advance(Append(b, if env.home != "" then env.home else "~", bare, false), i + 1, NUL)
    else if c == '$' then Dollar(env, raw, i, NUL, b, bare)
    else Advance(Append(b, [c], bare, false), i + 1, NUL)
  }

  function StepSingle(raw: string, i: nat, b: Buffers): Step
    requires i < |raw|
  {
    if raw[i] == '\'' then Next(b, i + 1, NUL) else Advance(Append(b, [raw[i]], false, false), i + 1, '\'')
  }

  function StepDouble(env: Env, raw: string, i: nat, b: Buffers): Step
    requires i < |raw|
  {
    var c := raw[i];
    if c == '"' then Next(b, i + 1, NUL)
    else if c == '\\' then
      if i + 1 >= |raw| then Stop(DanglingEscape)
      else Advance(Append(b, InQuotes(raw[i + 1]), false, false), i + 2, '"')
    else if c == '$' then Dollar(env, raw, i, '"', b, false)
    else Advance(Append(b, [c], false, false), i + 1, '"')
  }

  function StepToken(env: Env, mode: ExpandMode, raw: string, i: nat, quote: char, b: Buffers): (s: Step)
    requires i < |raw|
    ensures s.Next? ==> s.index > i
  {
    if quote == NUL then StepUnquoted(env, mode, raw, i, b)
    else if quote == '\'' then StepSingle(raw, i, b)
    else StepDouble(env, raw, i, b)
  }

  /** The rest of `expand_raw_token`. */
  function ExpandRest(env: Env, mode: ExpandMode, raw: string, i: nat, quote: char, b: Buffers): Expanded
    decreases |raw| - i
  {
    if i >= |raw| then (if quote != NUL then Failed(OpenQuote) else Done(b))
    else
      var s := StepToken(env, mode, raw, i, quote, b);
      if s.Stop? then Failed(s.error) else ExpandRest(env, mode, raw, s.index, s.quote, s.buffers)
  }

  function ExpandToken(env: Env, mode: ExpandMode, raw: string): Expanded {
    ExpandRest(env, mode, raw, 0, NUL, EMPTY)
  }

  function Separators(env: Env): string { if env.ifs.Some? then env.ifs.value else " \t\n" }

  function IsProcess(raw: string): bool { |raw| > 1 && (raw[0] == '<' || raw[0] == '>') && raw[1] == '(' }

  function SplitValues(env: Env, b: Buffers, max: nat): Values {
    var fields := FieldsOf(b.text, b.flags, b.sawQuote, Separators(env));
    if |fields| <= max then Values(fields) else NoValues(TooManyFields)
  }

  /** `arksh_expand_word`, for room of at least one value. */
  function ExpandWord(env: Env, mode: ExpandMode, raw: string, max: nat): Values {
    if IsProcess(raw) then
      if mode == CommandName || mode == ObjectSelector || mode == ObjectArgument then NoValues(Misplaced)
      else (match env.process(raw) case None => NoValues(SubstitutionFailed) case Some(path) => Values([path]))
    else
      match ExpandToken(env, mode, raw)
      case Failed(error) => NoValues(error)
      case Done(b) =>
        if mode != Command then Values([b.text])
        else if b.hasGlob then
          match env.glob(b.pattern, max) {
            case GlobError => NoValues(GlobFailed)
            case Matches(names) => if names != [] then Values(names) else SplitValues(env, b, max)
          }
        else SplitValues(env, b, max)
  }

  // ---------------------------------------------------------------- the pattern beside the text

  /** What a pattern matches literally: the text with the escapes removed. */
  function Unescaped(p: string): string {
    if p == "" then "" else if p[0] == '\\' && |p| > 1 then [p[1]] + Unescaped(p[2..]) else [p[0]] + Unescaped(p[1..])
  }

  /** Is there a glob character that is not escaped? */
  predicate HasBareMeta(p: string) {
    p != "" && if p[0] == '\\' && |p| > 1 then HasBareMeta(p[2..]) else IsMeta(p[0]) || HasBareMeta(p[1..])
  }

  /** No backslash without a character after it. */
  predicate Closed(p: string) {
    p == "" || if p[0] == '\\' then |p| > 1 && Closed(p[2..]) else Closed(p[1..])
  }

  lemma {:induction false} UnescapedAppend(p: string, q: string)
    requires Closed(p)
    ensures Unescaped(p + q) == Unescaped(p) + Unescaped(q)
    ensures HasBareMeta(p + q) == (HasBareMeta(p) || HasBareMeta(q))
    ensures Closed(p + q) == Closed(q)
    decreases |p|
  {
    if p == "" {
      assert p + q == q;
    } else {
      var n := if p[0] == '\\' then 2 else 1;
      assert (p + q)[n..] == p[n..] + q;
      UnescapedAppend(p[n..], q);
      Assoc([p[n - 1]], Unescaped(p[n..]), Unescaped(q));
    }
  }

  lemma PatternOfChar(c: char, bare: bool)
    ensures var p := PatternOf(c, bare);
      Closed(p) && Unescaped(p) == [c] && |p| <= 2 && HasBareMeta(p) == (bare && IsMeta(c))
  {
    var p := PatternOf(c, bare);
    assert |p| == 2 ==> p[2..] == "";
    assert p[1..] == "" || |p| == 2;
  }

  lemma {:induction false} PatternOfText(t: string, bare: bool)
    ensures var p := PatternText(t, bare);
      Closed(p) && Unescaped(p) == t && |p| <= 2 * |t| && HasBareMeta(p) == (bare && HasMeta(t))
  {
    if t != "" {
      PatternOfChar(t[0], bare);
      PatternOfText(t[1..], bare);
      UnescapedAppend(PatternOf(t[0], bare), PatternText(t[1..], bare));
      assert t == [t[0]] + t[1..];
      assert HasMeta(t) == (IsMeta(t[0]) || HasMeta(t[1..])) by {
        if HasMeta(t[1..]) {
          var k :| 0 <= k < |t[1..]| && IsMeta(t[1..][k]);
          assert IsMeta(t[k + 1]);
        }
        if HasMeta(t) && !IsMeta(t[0]) {
          var k :| 0 <= k < |t| && IsMeta(t[k]);
          assert IsMeta(t[1..][k - 1]);
        }
      }
    }
  }

  /** What holds of the buffers at every step. */
  predicate InStep(b: Buffers) {
    |b.flags| == |b.text| < MAX_TOKEN && Closed(b.pattern) && Unescaped(b.pattern) == b.text
    && |b.pattern| <= 2 * |b.text| && b.hasGlob == HasBareMeta(b.pattern)
  }

  lemma AppendInStep(b: Buffers, t: string, bare: bool, split: bool)
    requires InStep(b)
    ensures var r := Append(b, t, bare, split); if r.Done? then InStep(r.buffers) else r.error == TextTooLong
  {
    PatternOfText(t, bare);
    UnescapedAppend(b.pattern, PatternText(t, bare));
    var r := Append(b, t, bare, split);
    if r.Done? { assert r.buffers.pattern == b.pattern + PatternText(t, bare) && r.buffers.text == b.text + t; }
  }

  predicate Fine(s: Step) { if s.Next? then InStep(s.buffers) else s.error != PatternTooLong }

  lemma DollarInStep(env: Env, raw: string, i: nat, quote: char, b: Buffers, bare: bool)
    requires InStep(b)
    ensures Fine(Dollar(env, raw, i, quote, b, bare))
  {
    match env.substitute(raw, i)
    case NoSubstitution =>
    case Substituted(text, _, arithmetic) => AppendInStep(b, text, bare, quote == NUL && !arithmetic);
  }

  lemma UnquotedInStep(env: Env, mode: ExpandMode, raw: string, i: nat, b: Buffers)
    requires i < |raw| && InStep(b)
    ensures Fine(StepUnquoted(env, mode, raw, i, b))
  {
    var c, bare := raw[i], mode == Command;
    if c == '\'' || c == '"' {
    } else if c == '\\' {
      if i + 1 < |raw| { AppendInStep(b, [raw[i + 1]], false, false); }
    } else if c == '~' && !b.begun && b.text == "" && (i + 1 >= |raw| || raw[i + 1] == '/') {
      AppendInStep(b, if env.home != "" then env.home else "~", bare, false);
    } else if c == '$' {
      DollarInStep(env, raw, i, NUL, b, bare);
    } else {
      AppendInStep(b, [c], bare, false);
    }
  }

  lemma QuotedInStep(env: Env, raw: string, i: nat, b: Buffers)
    requires i < |raw| && InStep(b)
    ensures Fine(StepSingle(raw, i, b)) && Fine(StepDouble(env, raw, i, b))
  {
    var c := raw[i];
    AppendInStep(b, [c], false, false);
    if c == '\\' {
      if i + 1 < |raw| { AppendInStep(b, InQuotes(raw[i + 1]), false, false); }
    } else if c == '$' {
      DollarInStep(env, raw, i, '"', b, false);
    }
  }

  lemma {:induction false} RestInStep(env: Env, mode: ExpandMode, raw: string, i: nat, quote: char, b: Buffers)
    requires InStep(b)
    ensures var r := ExpandRest(env, mode, raw, i, quote, b);
      if r.Done? then InStep(r.buffers) else r.error != PatternTooLong
    decreases |raw| - i
  {
    if i < |raw| {
      UnquotedInStep(env, mode, raw, i, b);
      QuotedInStep(env, raw, i, b);
      var s := StepToken(env, mode, raw, i, quote, b);
      if s.Next? { RestInStep(env, mode, raw, s.index, s.quote, s.buffers); }
    }
  }

  /**
   * For every token and every shell: the pattern without its escapes is the expanded text, it
   * holds a bare glob character exactly when pathname expansion is called for, and its buffer of
   * twice the size never overflows.
   */
  lemma PatternDenotesText(env: Env, mode: ExpandMode, raw: string)
    ensures var r := ExpandToken(env, mode, raw); if r.Done? then InStep(r.buffers) else r.error != PatternTooLong
  {
    RestInStep(env, mode, raw, 0, NUL, EMPTY);
  }
}
