/**
What the expansion of a word is, part by part: quoted text, escapes, substitutions, a home
directory, plain characters. Each character of the result is marked with whether field splitting
may split there and whether a glob character keeps its meaning.
*/
module WordMeaning {
  import opened Text
  import opened WordExpansion
  import F = Fields

  datatype Mark = Mark(c: char, splits: bool, bare: bool)

  /** What a part of the raw text gives, and where it ends. */
  datatype Part = Part(marks: seq<Mark>, end: nat, quoted: bool)

  function Marked(t: string, splits: bool, bare: bool): (marks: seq<Mark>) {
    if t == "" then [] else [Mark(t[0], splits, bare)] + Marked(t[1..], splits, bare)
  }

  function Behind(marks: seq<Mark>, p: Option<Part>): (r: Option<Part>) {
    if p == None then None else Some(p.value.(marks := marks + p.value.marks))
  }

  /** Single-quoted text up to the closing quote: it stands for itself. */
  function SingleQuoted(raw: string, i: nat): (p: Option<Part>)
    ensures p.Some? ==> p.value.end > i && p.value.quoted
    decreases |raw| - i
  {
    if i >= |raw| then None
    else if raw[i] == '\'' then Some(Part([], i + 1, true))
    else Behind([Mark(raw[i], false, false)], SingleQuoted(raw, i + 1))
  }

  /** A backslash in double quotes keeps its place except before these. */
  predicate EscapedInside(c: char) { c == '$' || c == '`' || c == '"' || c == '\\' || c == '\n' }

  /** Double-quoted text: escapes and substitutions are replaced, nothing in it splits or is a pattern. */
  function DoubleQuoted(env: Env, raw: string, i: nat): (p: Option<Part>)
    ensures p.Some? ==> p.value.end > i && p.value.quoted
    decreases |raw| - i
  {
    if i >= |raw| then None
    else if raw[i] == '"' then Some(Part([], i + 1, true))
    else if raw[i] == '\\' then
      if i + 1 >= |raw| then None
      else
        var t := if EscapedInside(raw[i + 1]) then [raw[i + 1]] else ['\\', raw[i + 1]];
        Behind(Marked(t, false, false), DoubleQuoted(env, raw, i + 2))
    else if raw[i] == '$' then
      match env.substitute(raw, i)
      case NoSubstitution => None
      case Substituted(t, span, _) => Behind(Marked(t, false, false), DoubleQuoted(env, raw, i + span + 1))
    else Behind([Mark(raw[i], false, false)], DoubleQuoted(env, raw, i + 1))
  }

  /** The part of a word that begins at `i`; only words of commands have patterns. */
  function PartAt(env: Env, mode: ExpandMode, raw: string, i: nat): (p: Option<Part>)
    requires i < |raw|
    ensures p.Some? ==> p.value.end > i
  {
    var c, bare := raw[i], mode == Command;
    if c == '\'' then SingleQuoted(raw, i + 1)
    else if c == '"' then DoubleQuoted(env, raw, i + 1)
    else if c == '\\' then
      if i + 1 >= |raw| then None else Some(Part([Mark(raw[i + 1], false, false)], i + 2, false))
    else if c == '$' then
      match env.substitute(raw, i)
      case NoSubstitution => None
      case Substituted(t, span, arithmetic) => Some(Part(Marked(t, !arithmetic, bare), i + span + 1, false))
    else if c == '~' && i == 0 && (|raw| == 1 || raw[1] == '/') && env.home != "" then
      Some(Part(Marked(env.home, false, bare), 1, false))
    else Some(Part([Mark(c, false, bare)], i + 1, false))
  }

  function Both(p: Option<Part>, q: Option<Part>): (r: Option<Part>) {
    if p == None || q == None then None
    else Some(Part(p.value.marks + q.value.marks, q.value.end, p.value.quoted || q.value.quoted))
  }

  /** All parts from `i` on. */
  function Parts(env: Env, mode: ExpandMode, raw: string, i: nat): (p: Option<Part>)
    decreases |raw| - i
  {
    if i >= |raw| then Some(Part([], i, false))
    else
      match PartAt(env, mode, raw, i)
      case None => None
      case Some(p) => Both(Some(p), Parts(env, mode, raw, p.end))
  }

  // ---------------------------------------------------------------- the buffers

  function TextOf(marks: seq<Mark>): (t: string) { seq(|marks|, k requires 0 <= k < |marks| => marks[k].c) }

  function FlagsOf(marks: seq<Mark>): (f: seq<bool>) { seq(|marks|, k requires 0 <= k < |marks| => marks[k].splits) }

  predicate IsGlob(c: char) { c == '*' || c == '?' || c == '[' || c == ']' }

  /** Glob characters that have lost their meaning, and backslashes, are escaped. */
  function PatternText(marks: seq<Mark>): (p: string) {
    if marks == [] then ""
    else
      var m := marks[0];
      (if m.c == '\\' || (IsGlob(m.c) && !m.bare) then ['\\', m.c] else [m.c]) + PatternText(marks[1..])
  }

  predicate HasGlob(marks: seq<Mark>) { exists k :: 0 <= k < |marks| && marks[k].bare && IsGlob(marks[k].c) }

  function Added(b: Buffers, marks: seq<Mark>): (b': Buffers) {
    Buffers(b.text + TextOf(marks), b.flags + FlagsOf(marks), b.pattern + PatternText(marks),
      b.hasGlob || HasGlob(marks), b.sawQuote, true)
  }

  lemma {:induction false} PatternAppend(a: seq<Mark>, b: seq<Mark>)
    ensures PatternText(a + b) == PatternText(a) + PatternText(b)
  {
    if a == [] {
      assert a + b == b;
    } else {
      assert (a + b)[1..] == a[1..] + b;
      PatternAppend(a[1..], b);
    }
  }

  lemma AddedTwice(b: Buffers, m: seq<Mark>, n: seq<Mark>)
    ensures Added(Added(b, m), n) == Added(b, m + n)
  {
    assert TextOf(m + n) == TextOf(m) + TextOf(n) && FlagsOf(m + n) == FlagsOf(m) + FlagsOf(n);
    Assoc(b.text, TextOf(m), TextOf(n));
    Assoc(b.flags, FlagsOf(m), FlagsOf(n));
    PatternAppend(m, n);
    Assoc(b.pattern, PatternText(m), PatternText(n));
    assert HasGlob(m + n) == (HasGlob(m) || HasGlob(n)) by {
      if k :| 0 <= k < |n| && n[k].bare && IsGlob(n[k].c) { assert (m + n)[|m| + k] == n[k]; }
      if k :| 0 <= k < |m| && m[k].bare && IsGlob(m[k].c) { assert (m + n)[k] == m[k]; }
    }
  }

  lemma AddedNothing(b: Buffers)
    requires b.begun
    ensures Added(b, []) == b
  {
    assert b.text + TextOf([]) == b.text && b.flags + FlagsOf([]) == b.flags && b.pattern + "" == b.pattern;
  }

  lemma {:induction false} MarkedIs(t: string, splits: bool, bare: bool)
    ensures var m := Marked(t, splits, bare);
            |m| == |t| && TextOf(m) == t && FlagsOf(m) == seq(|t|, _ => splits)
            && PatternText(m) == WordExpansion.PatternText(t, bare) && HasGlob(m) == (bare && HasMeta(t))
  {
    if t != "" {
      var m, rest := Marked(t, splits, bare), Marked(t[1..], splits, bare);
      MarkedIs(t[1..], splits, bare);
      assert m[1..] == rest;
      FirstMarked(t, m, splits);
      MetaFirst(t);
      GlobFirst(m);
    }
  }

  lemma FirstMarked(t: string, m: seq<Mark>, splits: bool)
    requires t != "" && m != [] && m[0].c == t[0] && m[0].splits == splits
    requires TextOf(m[1..]) == t[1..] && FlagsOf(m[1..]) == seq(|t[1..]|, _ => splits)
    ensures |m| == |t| && TextOf(m) == t && FlagsOf(m) == seq(|t|, _ => splits)
  {
    assert |TextOf(m[1..])| == |t| - 1;
    assert TextOf(m) == [t[0]] + TextOf(m[1..]) && t == [t[0]] + t[1..];
    assert FlagsOf(m) == [splits] + FlagsOf(m[1..]);
  }

  lemma MetaFirst(t: string)
    requires t != ""
    ensures HasMeta(t) == (IsMeta(t[0]) || HasMeta(t[1..]))
  {
    if k :| 0 <= k < |t[1..]| && IsMeta(t[1..][k]) { assert IsMeta(t[k + 1]); }
    if k :| 0 < k < |t| && IsMeta(t[k]) { assert IsMeta(t[1..][k - 1]); }
  }

  lemma GlobFirst(m: seq<Mark>)
    requires m != []
    ensures HasGlob(m) == ((m[0].bare && IsGlob(m[0].c)) || HasGlob(m[1..]))
  {
    if k :| 0 <= k < |m[1..]| && m[1..][k].bare && IsGlob(m[1..][k].c) { assert m[k + 1] == m[1..][k]; }
    if k :| 0 < k < |m| && m[k].bare && IsGlob(m[k].c) { assert m[1..][k - 1] == m[k]; }
  }

  /** Adding text to the buffers marks its characters alike. */
  lemma AppendAdds(b: Buffers, t: string, bare: bool, splits: bool)
    requires InStep(b)
    ensures var r := Append(b, t, bare, splits);
            if |b.text| + |t| < 256 then r == Done(Added(b, Marked(t, splits, bare))) && InStep(r.buffers)
            else r.Failed?
  {
    MarkedIs(t, splits, bare);
    PatternOfText(t, bare);
    AppendInStep(b, t, bare, splits);
  }

  // ---------------------------------------------------------------- the expander

  /** The expander goes on behind the part, having added its marks; or it fails. */
  predicate On(
      env: Env, mode: ExpandMode, raw: string, i: nat, quote: char, b: Buffers, p: Option<Part>)
  {
    var r := ExpandRest(env, mode, raw, i, quote, b);
    if p.Some? && |b.text| + |p.value.marks| < 256 then
      var b' := Added(b, p.value.marks);
      InStep(b') && r == ExpandRest(env, mode, raw, p.value.end, NUL, b'.(sawQuote := b.sawQuote || p.value.quoted))
    else r.Failed?
  }

  /** From a later place, with the marks added up to there. */
  lemma Then(
      env: Env, mode: ExpandMode, raw: string, i: nat, quote: char, b: Buffers, marks: seq<Mark>, j: nat,
      p: Option<Part>)
    requires ExpandRest(env, mode, raw, i, quote, b) == ExpandRest(env, mode, raw, j, quote, Added(b, marks))
    requires On(env, mode, raw, j, quote, Added(b, marks), p)
    ensures On(env, mode, raw, i, quote, b, Behind(marks, p))
  {
    if p.Some? { AddedTwice(b, marks, p.value.marks); }
  }

  lemma OneMark(b: Buffers, c: char, bare: bool)
    requires InStep(b)
    ensures var r := Append(b, [c], bare, false);
            if |b.text| + 1 < 256 then r == Done(Added(b, [Mark(c, false, bare)])) && InStep(r.buffers) else r.Failed?
  {
    AppendAdds(b, [c], bare, false);
    assert [c][1..] == "" && Marked([c], false, bare) == [Mark(c, false, bare)];
  }

  lemma {:induction false} SingleIs(env: Env, mode: ExpandMode, raw: string, i: nat, b: Buffers)
    requires InStep(b) && b.begun && b.sawQuote
    ensures On(env, mode, raw, i, '\'', b, SingleQuoted(raw, i))
    decreases |raw| - i
  {
    if i < |raw| {
      var next := i + 1;
      if raw[i] == '\'' {
        AddedNothing(b);
      } else {
        var m := [Mark(raw[i], false, false)];
        OneMark(b, raw[i], false);
        if |b.text| + 1 < 256 {
          SingleIs(env, mode, raw, next, Added(b, m));
          Then(env, mode, raw, i, '\'', b, m, next, SingleQuoted(raw, next));
        }
      }
    }
  }

  /** A round inside double quotes that adds `t`. */
  lemma DoubleStep(env: Env, mode: ExpandMode, raw: string, i: nat, b: Buffers, t: string, next: nat)
    requires i < |raw| && InStep(b) && raw[i] != '"'
    requires StepDouble(env, raw, i, b) == Advance(Append(b, t, false, false), next, '"')
    requires next > i
    ensures var b', r := Added(b, Marked(t, false, false)), ExpandRest(env, mode, raw, i, '"', b);
            if |b.text| + |t| < 256 then InStep(b') && r == ExpandRest(env, mode, raw, next, '"', b') else r.Failed?
  {
    AppendAdds(b, t, false, false);
  }

  lemma {:induction false} DoubleIs(env: Env, mode: ExpandMode, raw: string, i: nat, b: Buffers)
    requires InStep(b) && b.begun && b.sawQuote
    ensures On(env, mode, raw, i, '"', b, DoubleQuoted(env, raw, i))
    decreases |raw| - i
  {
    if i < |raw| {
      if raw[i] == '"' {
        AddedNothing(b);
      } else if raw[i] == '\\' {
        if i + 1 < |raw| {
          DoubleOn(env, mode, raw, i, b, if EscapedInside(raw[i + 1]) then [raw[i + 1]] else ['\\', raw[i + 1]], i + 2);
        }
      } else if raw[i] == '$' {
        match env.substitute(raw, i)
        case NoSubstitution =>
        case Substituted(t, span, _) => DoubleOn(env, mode, raw, i, b, t, i + span + 1);
      } else {
        assert [raw[i]][1..] == "" && Marked([raw[i]], false, false) == [Mark(raw[i], false, false)];
        DoubleOn(env, mode, raw, i, b, [raw[i]], i + 1);
      }
    }
  }

  lemma {:induction false} DoubleOn(env: Env, mode: ExpandMode, raw: string, i: nat, b: Buffers, t: string, next: nat)
    requires i < |raw| && InStep(b) && b.begun && b.sawQuote && raw[i] != '"' && next > i
    requires StepDouble(env, raw, i, b) == Advance(Append(b, t, false, false), next, '"')
    ensures On(env, mode, raw, i, '"', b, Behind(Marked(t, false, false), DoubleQuoted(env, raw, next)))
    decreases |raw| - i, 0
  {
    var m := Marked(t, false, false);
    MarkedIs(t, false, false);
    DoubleStep(env, mode, raw, i, b, t, next);
    if |b.text| + |t| < 256 {
      DoubleIs(env, mode, raw, next, Added(b, m));
      Then(env, mode, raw, i, '"', b, m, next, DoubleQuoted(env, raw, next));
    }
  }

  /** A round outside quotes that adds `t`. */
  lemma PlainStep(
      env: Env, mode: ExpandMode, raw: string, i: nat, b: Buffers, t: string, bare: bool, splits: bool, next: nat)
    requires i < |raw| && InStep(b)
    requires StepUnquoted(env, mode, raw, i, b) == Advance(Append(b, t, bare, splits), next, NUL)
    ensures On(env, mode, raw, i, NUL, b, Some(Part(Marked(t, splits, bare), next, false)))
  {
    MarkedIs(t, splits, bare);
    AppendAdds(b, t, bare, splits);
  }

  lemma OneMarked(c: char, bare: bool)
    ensures Marked([c], false, bare) == [Mark(c, false, bare)]
  {
    assert [c][1..] == "";
  }

  /** The expander's next rounds add the part that begins here. */
  lemma PartIs(env: Env, mode: ExpandMode, raw: string, i: nat, b: Buffers)
    requires i < |raw| && InStep(b) && (b.begun <==> i > 0) && (b.text != "" ==> b.begun)
    ensures On(env, mode, raw, i, NUL, b, PartAt(env, mode, raw, i))
  {
    var next, inside := i + 1, b.(sawQuote := true, begun := true);
    if raw[i] == '\'' {
      SingleIs(env, mode, raw, next, inside);
      QuoteOn(env, mode, raw, i, b, SingleQuoted(raw, next), next);
    } else if raw[i] == '"' {
      DoubleIs(env, mode, raw, next, inside);
      QuoteOn(env, mode, raw, i, b, DoubleQuoted(env, raw, next), next);
    } else if raw[i] == '\\' {
      if next < |raw| {
        OneMarked(raw[next], false);
        PlainStep(env, mode, raw, i, b, [raw[next]], false, false, i + 2);
      }
    } else if raw[i] == '$' {
      DollarIs(env, mode, raw, i, b);
    } else {
      PlainIs(env, mode, raw, i, b, next);
    }
  }

  lemma DollarIs(env: Env, mode: ExpandMode, raw: string, i: nat, b: Buffers)
    requires i < |raw| && InStep(b) && raw[i] == '$'
    ensures On(env, mode, raw, i, NUL, b, PartAt(env, mode, raw, i))
  {
    match env.substitute(raw, i)
    case NoSubstitution =>
    case Substituted(t, span, arithmetic) =>
      PlainStep(env, mode, raw, i, b, t, mode == Command, !arithmetic, i + span + 1);
  }

  lemma PlainIs(env: Env, mode: ExpandMode, raw: string, i: nat, b: Buffers, next: nat)
    requires i < |raw| && InStep(b) && (b.begun <==> i > 0) && (b.text != "" ==> b.begun) && next == i + 1
    requires raw[i] != '\'' && raw[i] != '"' && raw[i] != '\\' && raw[i] != '$'
    ensures On(env, mode, raw, i, NUL, b, PartAt(env, mode, raw, i))
  {
    var c, bare := raw[i], mode == Command;
    OneMarked(c, bare);
    if c == '~' && i == 0 && (|raw| == 1 || raw[1] == '/') {
      assert "~" == [c];
      PlainStep(env, mode, raw, i, b, if env.home != "" then env.home else "~", bare, false, next);
    } else {
      PlainStep(env, mode, raw, i, b, [c], bare, false, next);
    }
  }

  /** The round of an opening quote, and the part behind it. */
  lemma QuoteOn(env: Env, mode: ExpandMode, raw: string, i: nat, b: Buffers, p: Option<Part>, next: nat)
    requires i < |raw| && next == i + 1 && (raw[i] == '\'' || raw[i] == '"') && (p.Some? ==> p.value.quoted)
    requires On(env, mode, raw, next, raw[i], b.(sawQuote := true, begun := true), p)
    ensures On(env, mode, raw, i, NUL, b, p)
  {
  }

  /** The buffers hold these marks behind those of `b`. */
  predicate Shows(b: Buffers, marks: seq<Mark>, quoted: bool, b': Buffers) {
    b'.text == b.text + TextOf(marks) && b'.flags == b.flags + FlagsOf(marks)
    && b'.pattern == b.pattern + PatternText(marks) && b'.hasGlob == (b.hasGlob || HasGlob(marks))
    && b'.sawQuote == (b.sawQuote || quoted)
  }

  lemma {:induction false} PartsAre(env: Env, mode: ExpandMode, raw: string, i: nat, b: Buffers)
    requires InStep(b) && (b.begun <==> i > 0) && (b.text != "" ==> b.begun)
    ensures var p, r := Parts(env, mode, raw, i), ExpandRest(env, mode, raw, i, NUL, b);
            if p.Some? && |b.text| + |p.value.marks| < 256
            then r.Done? && Shows(b, p.value.marks, p.value.quoted, r.buffers) else r.Failed?
    decreases |raw| - i
  {
    if i >= |raw| {
      assert b.text + TextOf([]) == b.text && b.flags + FlagsOf([]) == b.flags && b.pattern + "" == b.pattern;
    } else {
      var p := PartAt(env, mode, raw, i);
      PartIs(env, mode, raw, i, b);
      if p.Some? && |b.text| + |p.value.marks| < 256 {
        var b' := Added(b, p.value.marks).(sawQuote := b.sawQuote || p.value.quoted);
        PartsAre(env, mode, raw, p.value.end, b');
        var rest := Parts(env, mode, raw, p.value.end);
        if rest.Some? { AddedTwice(b, p.value.marks, rest.value.marks); }
      }
    }
  }

  /**
  A token expands to the marked characters of its parts, in order, exactly if there is a meaning
  for each part and no more than 255 characters in all.
  */
  lemma ExpandTokenIs(env: Env, mode: ExpandMode, raw: string)
    ensures var p, r := Parts(env, mode, raw, 0), ExpandToken(env, mode, raw);
            if p.Some? && |p.value.marks| < 256 then
              r.Done? && r.buffers.text == TextOf(p.value.marks) && r.buffers.flags == FlagsOf(p.value.marks)
              && r.buffers.pattern == PatternText(p.value.marks) && r.buffers.hasGlob == HasGlob(p.value.marks)
              && r.buffers.sawQuote == p.value.quoted
            else r.Failed?
  {
    PartsAre(env, mode, raw, 0, EMPTY);
    var p := Parts(env, mode, raw, 0);
    if p.Some? {
      var m := p.value.marks;
      assert "" + TextOf(m) == TextOf(m) && [] + FlagsOf(m) == FlagsOf(m) && "" + PatternText(m) == PatternText(m);
    }
  }

  /** The values of a word for commands: files if its pattern names some, or else its fields. */
  function CommandValues(env: Env, p: Part, max: nat): (v: Values) {
    var separators := if env.ifs.Some? then env.ifs.value else " \t\n";
    var fields := F.FieldsOf(TextOf(p.marks), FlagsOf(p.marks), p.quoted, separators);
    var found := if HasGlob(p.marks) then env.glob(PatternText(p.marks), max) else Matches([]);
    match found
    case GlobError => NoValues(GlobFailed)
    case Matches(names) =>
      if names != [] then Values(names) else if |fields| <= max then Values(fields) else NoValues(TooManyFields)
  }

  /** A word that is no process substitution has the values of its parts, and none if they have no meaning. */
  lemma ExpandWordIs(env: Env, mode: ExpandMode, raw: string, max: nat)
    requires !(|raw| > 1 && (raw[0] == '<' || raw[0] == '>') && raw[1] == '(')
    ensures var p, r := Parts(env, mode, raw, 0), ExpandWord(env, mode, raw, max);
            if p.Some? && |p.value.marks| < 256 then
              r == if mode == Command then CommandValues(env, p.value, max) else Values([TextOf(p.value.marks)])
            else r.NoValues?
  {
    ExpandTokenIs(env, mode, raw);
  }

  /** A process substitution is one path, and has no place in a command name or an object expression. */
  lemma ProcessWordIs(env: Env, mode: ExpandMode, raw: string, max: nat)
    requires |raw| > 1 && (raw[0] == '<' || raw[0] == '>') && raw[1] == '('
    ensures ExpandWord(env, mode, raw, max) ==
            if mode == CommandName || mode == ObjectSelector || mode == ObjectArgument then NoValues(Misplaced)
            else if env.process(raw) == None then NoValues(SubstitutionFailed) else Values([env.process(raw).value])
  {
  }

  // ---------------------------------------------------------------- substitutions

  /** A substitution alone in double quotes is one value, with any value and any separators. */
  lemma QuotedSubstitution(env: Env, mode: ExpandMode, raw: string, t: string, arithmetic: bool, max: nat)
    requires |raw| > 2 && raw[0] == '"' && raw[1] == '$' && raw[|raw| - 1] == '"'
    requires env.substitute(raw, 1) == Substituted(t, |raw| - 3, arithmetic) && |t| < 256 && max > 0
    ensures ExpandWord(env, mode, raw, max) == Values([t])
  {
    var m, last := Marked(t, false, false), |raw| - 1;
    MarkedIs(t, false, false);
    ExpandWordIs(env, mode, raw, max);
    assert DoubleQuoted(env, raw, last) == Some(Part([], |raw|, true));
    assert m + [] == m;
    assert DoubleQuoted(env, raw, 1) == Some(Part(m, |raw|, true));
    assert Parts(env, mode, raw, 0) == Some(Part(m, |raw|, true));
    F.LiteralIsOneField(t, FlagsOf(m), true, if env.ifs.Some? then env.ifs.value else " \t\n");
  }

  /** A substitution alone and unquoted: its value is split everywhere, unless it is arithmetic. */
  lemma BareSubstitution(env: Env, raw: string, t: string, arithmetic: bool, max: nat)
    requires raw != "" && raw[0] == '$' && env.substitute(raw, 0) == Substituted(t, |raw| - 1, arithmetic)
    requires |t| < 256 && !HasMeta(t)
    ensures var separators := if env.ifs.Some? then env.ifs.value else " \t\n";
            var fields := F.FieldsOf(t, seq(|t|, _ => !arithmetic), false, separators);
            ExpandWord(env, Command, raw, max) == if |fields| <= max then Values(fields) else NoValues(TooManyFields)
  {
    var m := Marked(t, !arithmetic, true);
    MarkedIs(t, !arithmetic, true);
    ExpandWordIs(env, Command, raw, max);
    assert m + [] == m;
    assert Parts(env, Command, raw, 0) == Some(Part(m, |raw|, false));
  }
}
