/** Word expansion as the source runs it: buffers filled by one loop over the raw text. */
module WordExpansionRuntime {
  import opened Text
  import opened Fields
  import opened WordExpansion

  lemma {:induction false} PatternTextSplit(t: string, i: nat, bare: bool)
    requires i < |t|
    ensures PatternText(t[..i + 1], bare) == PatternText(t[..i], bare) + PatternOf(t[i], bare)
    ensures |PatternText(t[..i + 1], bare)| <= |PatternText(t, bare)|
    decreases |t|
  {
    var head, tail := PatternOf(t[0], bare), t[1..];
    assert t[..i + 1][0] == t[0] && t[..i + 1][1..] == tail[..i];
    if i == 0 {
      assert tail[..0] == "" && t[..0] == "";
    } else {
      assert t[..i][0] == t[0] && t[..i][1..] == tail[..i - 1];
      PatternTextSplit(tail, i - 1, bare);
      Assoc(head, PatternText(tail[..i - 1], bare), PatternOf(tail[i - 1], bare));
    }
  }

  class TokenExpander {
    var text: string
    var flags: seq<bool>
    var pattern: string
    var hasGlob: bool
    var sawQuote: bool
    var begun: bool

    constructor ()
      ensures State() == EMPTY
    {
      text, flags, pattern, hasGlob, sawQuote, begun := "", [], "", false, false, false;
    }

    ghost function State(): (b: Buffers)
      reads this
    {
      Buffers(text, flags, pattern, hasGlob, sawQuote, begun)
    }

    /** `append_pattern_text` */
    method AppendPatternText(t: string, bare: bool) returns (ok: bool)
      requires |pattern| < MAX_PATTERN
      modifies this
      ensures ok == (|old(pattern)| + |PatternText(t, bare)| < MAX_PATTERN)
      ensures ok ==> pattern == old(pattern) + PatternText(t, bare) && hasGlob == (old(hasGlob) || (bare && HasMeta(t)))
      ensures text == old(text) && flags == old(flags) && sawQuote == old(sawQuote) && begun == old(begun)
    {
      ghost var before := pattern;
      var i := 0;
      assert t[..0] == "" && before + "" == before;
      while i < |t|
        invariant i <= |t| && pattern == before + PatternText(t[..i], bare) && |pattern| < MAX_PATTERN
        invariant hasGlob == (old(hasGlob) || (bare && exists k :: 0 <= k < i && IsMeta(t[k])))
        invariant text == old(text) && flags == old(flags) && sawQuote == old(sawQuote) && begun == old(begun)
      {
        PatternTextSplit(t, i, bare);
        Assoc(before, PatternText(t[..i], bare), PatternOf(t[i], bare));
        if bare && IsMeta(t[i]) { hasGlob := true; }
        var added := if (t[i] == '\\' || IsMeta(t[i])) && !(bare && IsMeta(t[i])) then ['\\', t[i]] else [t[i]];
        if |pattern| + |added| >= MAX_PATTERN { return false; }
        pattern := pattern + added;
        i := i + 1;
      }
      assert t[..i] == t;
      return true;
    }

    /** `append_text` and `append_pattern_text` one after the other, and the splitting marks. */
    method AppendText(t: string, bare: bool, split: bool) returns (error: Option<ExpandError>)
      requires InStep(State())
      modifies this
      ensures match Append(old(State()), t, bare, split)
              case Done(b) => error == None && State() == b && InStep(b)
              case Failed(e) => error == Some(e)
    {
      AppendInStep(State(), t, bare, split);
      if |text| + |t| >= MAX_TOKEN { return Some(TextTooLong); }
      var ok := AppendPatternText(t, bare);
      if !ok { return Some(PatternTooLong); }
      text, flags, begun := text + t, flags + seq(|t|, _ => split), true;
      return None;
    }

    /** The buffers, the index and the quote state are what `s` says, or `error` is. */
    ghost predicate Did(s: Step, error: Option<ExpandError>, next: nat, quote: char)
      reads this
    {
      match s
      case Next(b, i, q) => error == None && State() == b && InStep(b) && next == i && quote == q
      case Stop(e) => error == Some(e)
    }

    /** A round of the loop outside quotes. */
    method RoundUnquoted(
        env: Env, mode: ExpandMode, raw: string, i: nat) returns (error: Option<ExpandError>, next: nat, quote: char)
      requires InStep(State()) && i < |raw|
      modifies this
      ensures Did(StepUnquoted(env, mode, raw, i, old(State())), error, next, quote)
    {
      var c, bare := raw[i], mode == Command;
      error, next, quote := None, i + 1, NUL;
      if c == '\'' || c == '"' {
        sawQuote, begun, quote := true, true, c;
      } else if c == '\\' {
        if i + 1 >= |raw| { return Some(DanglingEscape), next, quote; }
        error := AppendText([raw[i + 1]], false, false);
        next := i + 2;
      } else if c == '~' && !begun && text == "" && (i + 1 >= |raw| || raw[i + 1] == '/') {
        error := AppendText(if env.home != "" then env.home else "~", bare, false);
      } else if c == '$' {
        var r := env.substitute(raw, i);
        if r == NoSubstitution { return Some(SubstitutionFailed), next, quote; }
        error := AppendText(r.text, bare, !r.arithmetic);
        next := i + r.span + 1;
      } else {
        error := AppendText([c], bare, false);
      }
    }

    /** A round of the loop inside quotes. */
    method RoundQuoted(env: Env, mode: ExpandMode, raw: string, i: nat, within: char)
      returns (error: Option<ExpandError>, next: nat, quote: char)
      requires InStep(State()) && i < |raw| && (within == '\'' || within == '"')
      modifies this
      ensures Did(StepToken(env, mode, raw, i, within, old(State())), error, next, quote)
    {
      var c := raw[i];
      error, next, quote := None, i + 1, within;
      if c == within {
        quote := NUL;
      } else if within == '"' && c == '\\' {
        if i + 1 >= |raw| { return Some(DanglingEscape), next, quote; }
        error := AppendText(InQuotes(raw[i + 1]), false, false);
        next := i + 2;
      } else if within == '"' && c == '$' {
        var r := env.substitute(raw, i);
        if r == NoSubstitution { return Some(SubstitutionFailed), next, quote; }
        error := AppendText(r.text, false, false);
        next := i + r.span + 1;
      } else {
        error := AppendText([c], false, false);
      }
    }

    /** `expand_raw_token` */
    method ExpandRawToken(env: Env, mode: ExpandMode, raw: string) returns (error: Option<ExpandError>)
      requires State() == EMPTY
      modifies this
      ensures match ExpandToken(env, mode, raw)
              case Done(b) => error == None && State() == b && InStep(b)
              case Failed(e) => error == Some(e)
    {
      var i, quote := 0, NUL;
      while i < |raw|
        invariant InStep(State()) && (quote == NUL || quote == '\'' || quote == '"')
        invariant ExpandToken(env, mode, raw) == ExpandRest(env, mode, raw, i, quote, State())
        decreases |raw| - i
      {
        if quote == NUL {
          error, i, quote := RoundUnquoted(env, mode, raw, i);
        } else {
          error, i, quote := RoundQuoted(env, mode, raw, i, quote);
        }
        if error.Some? { return; }
      }
      return if quote != NUL then Some(OpenQuote) else None;
    }
  }

  /** `arksh_expand_word` */
  method ExpandWordValues(env: Env, mode: ExpandMode, raw: string, max: nat) returns (values: Values)
    requires max > 0
    ensures values == ExpandWord(env, mode, raw, max)
  {
    if IsProcess(raw) {
      if mode == CommandName || mode == ObjectSelector || mode == ObjectArgument { return NoValues(Misplaced); }
      var path := env.process(raw);
      return if path.None? then NoValues(SubstitutionFailed) else Values([path.value]);
    }
    var token := new TokenExpander();
    var error := token.ExpandRawToken(env, mode, raw);
    if error.Some? { return NoValues(error.value); }
    if mode == Command && token.hasGlob {
      var found := env.glob(token.pattern, max);
      if found.GlobError? { return NoValues(GlobFailed); }
      if found.names != [] { return Values(found.names); }
    }
    if mode != Command { return Values([token.text]); }
    var fields := ApplyIfsSplitting(token.text, token.flags, token.sawQuote, Separators(env), max);
    return if fields.None? then NoValues(TooManyFields) else Values(fields.value);
  }
}
