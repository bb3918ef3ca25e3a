/**
Shell pattern matching: the two matchers of the word expander and the matcher of `case`.
The parameter expansions built on them are in `ParameterExpansion`.

All of them are stated against `Accepts`, the relation that sections 2.13.1 and 2.13.2 of
the POSIX Shell Command Language describe: `*` stands for any string, `?` for any one
character, a backslash makes the next character literal, everything else is literal.
*/
module Glob {
  import opened Text

  /** The literal character at the head of a pattern and what follows it. */
  function Literal(pat: string): (r: (char, string))
    requires pat != ""
    ensures |r.1| < |pat|
  {
    if pat[0] == '\\' && |pat| > 1 then (pat[1], pat[2..]) else (pat[0], pat[1..])
  }

  /** `pat` matches the whole of `s`; `[` is an ordinary character here. */
  ghost predicate Accepts(pat: string, s: string)
    decreases |pat|
  {
    if pat == "" then s == ""
    else if pat[0] == '*' then exists k :: 0 <= k <= |s| && Accepts(pat[1..], s[k..])
    else if pat[0] == '?' then s != "" && Accepts(pat[1..], s[1..])
    else s != "" && s[0] == Literal(pat).0 && Accepts(Literal(pat).1, s[1..])
  }

  /** A star over s[j..e], in terms of positions in `s`. */
  lemma StarAt(p: string, s: string, j: nat, e: nat)
    requires p != "" && p[0] == '*' && j <= e <= |s|
    ensures Accepts(p, s[j..e]) <==> exists a :: j <= a <= e && Accepts(p[1..], s[a..e])
  {
    if Accepts(p, s[j..e]) {
      var k :| 0 <= k <= e - j && Accepts(p[1..], s[j..e][k..]);
      assert s[j..e][k..] == s[j + k..e];
    }
    if a :| j <= a <= e && Accepts(p[1..], s[a..e]) {
      assert s[j..e][a - j..] == s[a..e];
    }
  }

  /** What a pattern that does not start with a star asks of its first character. */
  predicate HeadFits(p: string, c: char)
    requires p != ""
  {
    p[0] == '?' || c == Literal(p).0
  }

  function Tail(p: string): (r: string)
    requires p != ""
    ensures |r| < |p|
  {
    if p[0] == '?' then p[1..] else Literal(p).1
  }

  /** One character of s[j..e], in terms of positions in `s`. */
  lemma HeadAt(p: string, s: string, j: nat, e: nat)
    requires p != "" && p[0] != '*' && j <= e <= |s|
    ensures Accepts(p, s[j..e]) <==> j < e && HeadFits(p, s[j]) && Accepts(Tail(p), s[j + 1..e])
  {
    if j < e { assert s[j..e][1..] == s[j + 1..e]; }
  }

  /**
  The key fact behind greedy matching. If `p` matches s[j..e] and also s[k..f], where the
  second occurrence starts no earlier and ends no later, then it matches s[k..e]: a later
  start never costs length.
  */
  lemma {:induction false} LaterStartReachesAsFar(p: string, s: string, j: nat, e: nat, k: nat, f: nat)
    requires j <= k <= f <= e <= |s|
    requires Accepts(p, s[j..e]) && Accepts(p, s[k..f])
    ensures Accepts(p, s[k..e])
    decreases |p|
  {
    if p == "" {
      assert |s[j..e]| == 0;
    } else if p[0] == '*' {
      StarAt(p, s, j, e); StarAt(p, s, k, f); StarAt(p, s, k, e);
      var a :| j <= a <= e && Accepts(p[1..], s[a..e]);
      var b :| k <= b <= f && Accepts(p[1..], s[b..f]);
      if a < k {
        LaterStartReachesAsFar(p[1..], s, a, e, b, f);
      }
    } else {
      HeadAt(p, s, j, e); HeadAt(p, s, k, f); HeadAt(p, s, k, e);
      LaterStartReachesAsFar(Tail(p), s, j + 1, e, k + 1, f);
    }
  }

  /** The expander's whole-string matcher (`glob_match_full`) decides `Accepts`. */
  method GlobMatchFull(pat: string, str: string) returns (matched: bool)
    ensures matched == Accepts(pat, str)
    decreases |pat|
  {
    var p, s := pat, str;
    while p != ""
      invariant |p| <= |pat|
      invariant Accepts(pat, str) == Accepts(p, s)
      decreases |p|
    {
      if p[0] == '*' {
        var k := 0;
        while k <= |s|
          invariant 0 <= k <= |s| + 1
          invariant forall i :: 0 <= i < k ==> !Accepts(p[1..], s[i..])
        {
          var here := GlobMatchFull(p[1..], s[k..]);
          if here { return true; }
          k := k + 1;
        }
        return false;
      }
      if p[0] == '?' {
        if s == "" { return false; }
        p, s := p[1..], s[1..];
        continue;
      }
      if s == "" || s[0] != Literal(p).0 { return false; }
      p, s := Literal(p).1, s[1..];
    }
    return s == "";
  }

  /** `len` is the length of the longest match of `pat` in `s` starting at `at`, or -1 if there is none. */
  ghost predicate Longest(pat: string, s: string, at: nat, len: int)
    requires at <= |s|
  {
    -1 <= len <= |s| - at &&
    (len >= 0 ==> Accepts(pat, s[at..at + len])) &&
    forall e {:trigger Accepts(pat, s[at..e])} :: at + len < e <= |s| && at <= e ==> !Accepts(pat, s[at..e])
  }

  /**
  The prefix matcher (`glob_match_prefix(pat, str + at)`) tries the longest span for each
  `*` first and takes the first that works; the result is nevertheless the longest match.
  */
  method GlobMatchPrefix(pat: string, str: string, at: nat) returns (len: int)
    requires at <= |str|
    ensures Longest(pat, str, at, len)
    decreases |pat|
  {
    if pat == "" { return 0; }
    if pat[0] == '*' {
      var k := |str|;
      while k >= at
        invariant at - 1 <= k <= |str|
        invariant forall i :: k < i <= |str| ==> Longest(pat[1..], str, i, -1)
      {
        var rest := GlobMatchPrefix(pat[1..], str, k);
        if rest >= 0 {
          GreedyIsLongest(pat, str, at, k, rest);
          return k + rest - at;
        }
        k := k - 1;
      }
      NoStarMatch(pat, str, at);
      return -1;
    }
    if at == |str| || !HeadFits(pat, str[at]) {
      forall e | at <= e <= |str| ensures !Accepts(pat, str[at..e]) { HeadAt(pat, str, at, e); }
      return -1;
    }
    var rest := GlobMatchPrefix(Tail(pat), str, at + 1);
    forall e | at <= e <= |str| ensures Accepts(pat, str[at..e]) == (at < e && Accepts(Tail(pat), str[at + 1..e])) {
      HeadAt(pat, str, at, e);
    }
    return if rest < 0 then -1 else 1 + rest;
  }

  lemma NoStarMatch(pat: string, str: string, at: nat)
    requires pat != "" && pat[0] == '*' && at <= |str|
    requires forall i :: at <= i <= |str| ==> Longest(pat[1..], str, i, -1)
    ensures Longest(pat, str, at, -1)
  {
    forall e | at <= e <= |str| ensures !Accepts(pat, str[at..e]) {
      StarAt(pat, str, at, e);
      forall a | at <= a <= e ensures !Accepts(pat[1..], str[a..e]) {
        assert Longest(pat[1..], str, a, -1);
      }
    }
  }

  lemma GreedyIsLongest(pat: string, str: string, at: nat, k: nat, rest: nat)
    requires pat != "" && pat[0] == '*' && at <= k <= |str|
    requires forall i :: k < i <= |str| ==> Longest(pat[1..], str, i, -1)
    requires Longest(pat[1..], str, k, rest)
    ensures Longest(pat, str, at, k + rest - at)
  {
    StarAt(pat, str, at, k + rest);
    forall e | k + rest < e <= |str| ensures !Accepts(pat, str[at..e]) {
      StarAt(pat, str, at, e);
      forall a | at <= a <= e ensures !Accepts(pat[1..], str[a..e]) {
        if a > k {
          assert Longest(pat[1..], str, a, -1);
        } else if Accepts(pat[1..], str[a..e]) {
          LaterStartReachesAsFar(pat[1..], str, a, e, k, k + rest);
          assert false;
        }
      }
    }
  }

  // ---------------------------------------------------------------- the matcher of `case`

  /** Where a bracket expression starting inside at `cursor` ends, and whether it has `c`. */
  function ClassScan(pat: string, cursor: nat, c: char, matched: bool): (r: (nat, bool))
    requires cursor <= |pat|
    ensures cursor <= r.0 <= |pat|
    ensures r.0 < |pat| ==> pat[r.0] == ']'
    decreases |pat| - cursor
  {
    if cursor == |pat| || pat[cursor] == ']' then (cursor, matched)
    else
      var lo := EscapedAt(pat, cursor);
      var hi := RangeEnd(pat, lo);
      ClassScan(pat, hi + 1, c, matched || pat[lo] <= c <= pat[hi])
  }

  /** Index of the character meant at `i`: the one after it if it is an escaping backslash. */
  function EscapedAt(pat: string, i: nat): (r: nat)
    requires i < |pat|
    ensures i <= r < |pat|
  {
    if pat[i] == '\\' && i + 1 < |pat| then i + 1 else i
  }

  /** Index of the last character of the range that starts at `lo`: `lo` itself unless `-` and an end follow. */
  function RangeEnd(pat: string, lo: nat): (r: nat)
    requires lo < |pat|
    ensures lo <= r < |pat|
  {
    if lo + 2 < |pat| && pat[lo + 1] == '-' && pat[lo + 2] != ']' then EscapedAt(pat, lo + 2) else lo
  }

  /** The bracket expression at the head of `pat`: what follows it, or None if it is unclosed or lacks `c`. */
  function ClassRest(pat: string, c: char): (r: Option<string>)
    requires pat != "" && pat[0] == '['
    ensures r.Some? ==> |r.value| < |pat|
  {
    var negate := |pat| > 1 && (pat[1] == '!' || pat[1] == '^');
    var scan := ClassScan(pat, if negate then 2 else 1, c, false);
    if scan.0 < |pat| && scan.1 != negate then Some(pat[scan.0 + 1..]) else None
  }

  /** As `Accepts`, with bracket expressions. */
  ghost predicate AcceptsCase(pat: string, s: string)
    decreases |pat|
  {
    if pat == "" then s == ""
    else if pat[0] == '*' then exists k :: 0 <= k <= |s| && AcceptsCase(pat[1..], s[k..])
    else if s == "" then false
    else if pat[0] == '?' then AcceptsCase(pat[1..], s[1..])
    else if pat[0] == '[' then ClassRest(pat, s[0]).Some? && AcceptsCase(ClassRest(pat, s[0]).value, s[1..])
    else s[0] == Literal(pat).0 && AcceptsCase(Literal(pat).1, s[1..])
  }

  /** No bracket expression starts in `pat`: every `[` is escaped. */
  predicate NoBracket(pat: string)
    decreases |pat|
  {
    pat == "" || (pat[0] != '[' && NoBracket(if pat[0] == '*' || pat[0] == '?' then pat[1..] else Literal(pat).1))
  }

  /** A character class scan (`case_char_class_matches`): the index after `]`, or -1. */
  method CaseCharClassMatches(p: string, c: char) returns (next: int)
    requires p != "" && p[0] == '['
    ensures next == -1 <==> ClassRest(p, c) == None
    ensures next != -1 ==> 0 < next <= |p| && ClassRest(p, c) == Some(p[next..])
  {
    var negate := |p| > 1 && (p[1] == '!' || p[1] == '^');
    var cursor: nat := if negate then 2 else 1;
    var matched := false;
    ghost var scan := ClassScan(p, cursor, c, false);
    while cursor < |p| && p[cursor] != ']'
      invariant cursor <= |p|
      invariant scan == ClassScan(p, cursor, c, matched)
    {
      var lo := EscapedAt(p, cursor);
      var hi := RangeEnd(p, lo);
      matched := matched || p[lo] <= c <= p[hi];
      cursor := hi + 1;
    }
    assert scan == (cursor, matched);
    return if cursor == |p| || matched == negate then -1 else cursor + 1;
  }

  /** The matcher of `case` (`shell_pattern_matches`). */
  method ShellPatternMatches(pat: string, text: string) returns (matched: bool)
    ensures matched == AcceptsCase(pat, text)
    decreases |pat|
  {
    var p, t := pat, text;
    while p != ""
      invariant |p| <= |pat|
      invariant AcceptsCase(pat, text) == AcceptsCase(p, t)
      decreases |p|
    {
      if p[0] == '*' {
        while p != "" && p[0] == '*'
          invariant 0 < |p| + (if p == "" then 1 else 0)
          invariant |p| <= |pat|
          invariant p != "" && p[0] == '*' ==> AcceptsCase(pat, text) == AcceptsCase(p, t)
          invariant p == "" || p[0] != '*' ==> AcceptsCase(pat, text) == AcceptsCase("*" + p, t)
          invariant |p| == |pat| ==> p[0] == '*'
          decreases |p|
        {
          StarStar(p, t);
          p := p[1..];
        }
        if p == "" {
          assert t[|t|..] == "" && ("*" + p)[1..] == p;
          assert AcceptsCase(p, t[|t|..]);
          return true;
        }
        assert ("*" + p)[1..] == p;
        while true
          invariant AcceptsCase(pat, text) == exists k :: 0 <= k <= |t| && AcceptsCase(p, t[k..])
          decreases |t|
        {
          var here := ShellPatternMatches(p, t);
          assert t[0..] == t;
          if here { return true; }
          if t == "" { return false; }
          FirstStarStep(p, t);
          t := t[1..];
        }
      }
      if t == "" { return false; }
      if p[0] == '?' {
        p, t := p[1..], t[1..];
        continue;
      }
      if p[0] == '[' {
        var next := CaseCharClassMatches(p, t[0]);
        if next == -1 { return false; }
        p, t := p[next..], t[1..];
        continue;
      }
      if t[0] != Literal(p).0 { return false; }
      p, t := Literal(p).1, t[1..];
    }
    return t == "";
  }

  /** A run of stars means what one star means. */
  lemma StarStar(p: string, t: string)
    requires p != "" && p[0] == '*'
    ensures AcceptsCase(p, t) == AcceptsCase("*" + p[1..], t)
    ensures |p| > 1 && p[1] == '*' ==> AcceptsCase(p, t) == AcceptsCase(p[1..], t)
  {
    assert "*" + p[1..] == p;
    if |p| > 1 && p[1] == '*' {
      var q := p[1..];
      if AcceptsCase(p, t) {
        var k :| 0 <= k <= |t| && AcceptsCase(q, t[k..]);
        var j :| 0 <= j <= |t| - k && AcceptsCase(q[1..], t[k..][j..]);
        assert t[k..][j..] == t[k + j..];
      }
      if AcceptsCase(q, t) { assert t[0..] == t; }
    }
  }

  lemma FirstStarStep(p: string, t: string)
    requires t != "" && !AcceptsCase(p, t)
    ensures (exists k :: 0 <= k <= |t| && AcceptsCase(p, t[k..])) ==
            (exists k :: 0 <= k <= |t| - 1 && AcceptsCase(p, t[1..][k..]))
  {
    assert t[0..] == t;
    forall k | 1 <= k <= |t| ensures t[k..] == t[1..][k - 1..] {}
    if exists k :: 0 <= k <= |t| && AcceptsCase(p, t[k..]) {
      var k :| 0 <= k <= |t| && AcceptsCase(p, t[k..]);
      assert t[1..][k - 1..] == t[k..];
    }
    if exists k :: 0 <= k <= |t| - 1 && AcceptsCase(p, t[1..][k..]) {
      var k :| 0 <= k <= |t| - 1 && AcceptsCase(p, t[1..][k..]);
      assert t[k + 1..] == t[1..][k..];
    }
  }

  /** The two full matchers decide the same relation on every pattern that opens no bracket. */
  lemma {:induction false} MatchersAgree(pat: string, s: string)
    requires NoBracket(pat)
    ensures AcceptsCase(pat, s) == Accepts(pat, s)
    decreases |pat|
  {
    if pat == "" {
    } else if pat[0] == '*' {
      forall k | 0 <= k <= |s| ensures AcceptsCase(pat[1..], s[k..]) == Accepts(pat[1..], s[k..]) {
        MatchersAgree(pat[1..], s[k..]);
      }
    } else if s != "" {
      MatchersAgree(if pat[0] == '?' then pat[1..] else Literal(pat).1, s[1..]);
    }
  }

  // ---------------------------------------------------------------- when the matchers agree

  /** The length of the shortest string that a pattern accepts when `[` is an ordinary character. */
  function Least(pat: string): nat
    decreases |pat|
  {
    if pat == "" then 0 else if pat[0] == '*' then Least(pat[1..]) else 1 + Least(Tail(pat))
  }

  lemma {:induction false} AcceptedIsLong(pat: string, s: string)
    requires Accepts(pat, s)
    ensures |s| >= Least(pat)
    decreases |pat|
  {
    if pat == "" {
    } else if pat[0] == '*' {
      var k :| 0 <= k <= |s| && Accepts(pat[1..], s[k..]);
      AcceptedIsLong(pat[1..], s[k..]);
    } else {
      AcceptedIsLong(Tail(pat), s[1..]);
    }
  }

  lemma {:induction false} SomethingIsAccepted(pat: string) returns (s: string)
    ensures Accepts(pat, s)
    decreases |pat|
  {
    if pat == "" {
      s := "";
    } else if pat[0] == '*' {
      s := SomethingIsAccepted(pat[1..]);
      assert s[0..] == s;
    } else {
      var t := SomethingIsAccepted(Tail(pat));
      s := [Literal(pat).0] + t;
      assert s[1..] == t;
    }
  }

  /** The same for the pattern from `i` on. */
  function LeastAt(pat: string, i: nat): nat
    decreases |pat| - i
  {
    if i >= |pat| then 0 else (if pat[i] == '*' then 0 else 1) + LeastAt(pat, EscapedAt(pat, i) + 1)
  }

  lemma {:induction false} LeastAtIsLeast(pat: string, i: nat)
    requires i <= |pat|
    ensures LeastAt(pat, i) == Least(pat[i..])
    decreases |pat| - i
  {
    if i < |pat| {
      var next := EscapedAt(pat, i) + 1;
      LeastAtIsLeast(pat, next);
      assert pat[i..][0] == pat[i] && pat[i..][1..] == pat[i + 1..];
      assert next == i + 2 ==> pat[i..][1] == pat[i + 1] && pat[i..][2..] == pat[next..];
    }
  }

  /** Each element of a bracket expression is one of the pattern read literally. */
  lemma {:induction false} ClassIsLong(pat: string, cursor: nat, c: char, matched: bool)
    requires cursor <= |pat|
    ensures LeastAt(pat, cursor) >= LeastAt(pat, ClassScan(pat, cursor, c, matched).0)
    decreases |pat| - cursor
  {
    if cursor < |pat| && pat[cursor] != ']' {
      var lo := EscapedAt(pat, cursor);
      var hi := RangeEnd(pat, lo);
      var next := hi + 1;
      RangeIsLong(pat, lo, next);
      ClassIsLong(pat, next, c, matched || pat[lo] <= c <= pat[hi]);
    }
  }

  lemma RangeIsLong(pat: string, lo: nat, next: nat)
    requires lo < |pat| && next == RangeEnd(pat, lo) + 1
    ensures LeastAt(pat, lo + 1) >= LeastAt(pat, next)
  {
    if next != lo + 1 {
      var second := lo + 2;
      assert LeastAt(pat, lo + 1) == 1 + LeastAt(pat, second);
      assert LeastAt(pat, second) >= LeastAt(pat, next);
    }
  }

  lemma BracketAt(pat: string, start: nat, c: char, next: nat)
    requires 1 <= start <= |pat| && pat[0] == '[' && ClassScan(pat, start, c, false).0 < |pat|
    requires start == 1 || (start == 2 && (pat[1] == '!' || pat[1] == '^'))
    requires next == ClassScan(pat, start, c, false).0 + 1
    ensures LeastAt(pat, 0) >= 2 + LeastAt(pat, next)
  {
    ClassIsLong(pat, start, c, false);
    assert LeastAt(pat, 0) == 1 + LeastAt(pat, 1);
    assert LeastAt(pat, 1) >= LeastAt(pat, start);
    assert LeastAt(pat, next - 1) == 1 + LeastAt(pat, next);
  }

  /** A bracket expression takes one character, and at least two when it is read literally. */
  lemma BracketIsLonger(pat: string, c: char)
    requires pat != "" && pat[0] == '[' && ClassRest(pat, c).Some?
    ensures Least(pat) >= 2 + Least(ClassRest(pat, c).value)
  {
    var negate := |pat| > 1 && (pat[1] == '!' || pat[1] == '^');
    var start: nat := if negate then 2 else 1;
    var next := ClassScan(pat, start, c, false).0 + 1;
    BracketAt(pat, start, c, next);
    LeastAtIsLeast(pat, next);
    LeastWhole(pat);
  }

  lemma LeastWhole(pat: string)
    ensures LeastAt(pat, 0) == Least(pat)
  {
    assert pat[0..] == pat;
    LeastAtIsLeast(pat, 0);
  }

  /** What `case` accepts can be made as short as the literal reading, and shorter once a bracket opens. */
  lemma {:induction false} CaseShrinks(pat: string, s: string) returns (t: string)
    requires AcceptsCase(pat, s)
    ensures AcceptsCase(pat, t) && |t| <= Least(pat) && (!NoBracket(pat) ==> |t| < Least(pat))
    decreases |pat|
  {
    if pat == "" {
      t := "";
    } else if pat[0] == '*' {
      var k :| 0 <= k <= |s| && AcceptsCase(pat[1..], s[k..]);
      t := CaseShrinks(pat[1..], s[k..]);
      assert t[0..] == t;
    } else {
      var rest := if pat[0] == '[' then ClassRest(pat, s[0]).value else Tail(pat);
      var u := CaseShrinks(rest, s[1..]);
      t := [s[0]] + u;
      assert t[1..] == u;
      if pat[0] == '[' { BracketIsLonger(pat, s[0]); }
    }
  }

  /** For a pattern that opens a bracket, a string on which the two matchers differ. */
  lemma MatchersDiffer(pat: string) returns (s: string)
    requires !NoBracket(pat)
    ensures AcceptsCase(pat, s) != Accepts(pat, s)
  {
    s := SomethingIsAccepted(pat);
    if AcceptsCase(pat, s) {
      s := CaseShrinks(pat, s);
      if Accepts(pat, s) { AcceptedIsLong(pat, s); }
    }
  }

  /**
   * The matchers of `case` and of the expander decide the same relation exactly for the patterns that
   * open no bracket.
   */
  lemma MatchersAgreeIff(pat: string)
    ensures (forall s :: AcceptsCase(pat, s) == Accepts(pat, s)) <==> NoBracket(pat)
  {
    if NoBracket(pat) {
      forall s ensures AcceptsCase(pat, s) == Accepts(pat, s) { MatchersAgree(pat, s); }
    } else {
      var s := MatchersDiffer(pat);
    }
  }

  /** An instance: `[a]` is a class in `case` and three literals in `${v%p}`. */
  lemma MatchersDifferOnBracket()
    ensures AcceptsCase("[a]", "a") && !Accepts("[a]", "a")
    ensures Accepts("[a]", "[a]") && !AcceptsCase("[a]", "[a]")
  {
    var scan := ClassScan("[a]", 1, 'a', false);
    assert scan == ClassScan("[a]", 2, 'a', true) == (2, true);
    assert "[a]"[3..] == "" && "a"[1..] == "";
    assert ClassRest("[a]", '[') == None by {
      assert ClassScan("[a]", 1, '[', false) == ClassScan("[a]", 2, '[', false);
    }
    assert Accepts("]", "]") by { assert "]"[1..] == ""; }
    assert "a]"[1..] == "]" && "[a]"[1..] == "a]";
    assert Accepts("a]", "a]");
    assert "[a]"[0] != "a"[0];
  }
}
