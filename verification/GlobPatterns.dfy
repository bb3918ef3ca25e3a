/**
Patterns by their elements: `*`, `?`, literal characters with or without a backslash, and bracket
expressions of characters and ranges. What a pattern matches is told from these elements alone.
*/
module GlobPatterns {
  import opened Text
  import opened Glob

  // ---------------------------------------------------------------- elements

  /** A character in a bracket expression, perhaps behind a backslash. */
  datatype Letter = Letter(c: char, escaped: bool)

  /** One character, or all those from one to another. */
  datatype Range = Range(lo: Letter, hi: Option<Letter>)

  datatype Element =
    | Star
    | One
    | Literally(c: char, escaped: bool)
    | Bracket(negated: bool, mark: char, ranges: seq<Range>)

  function LetterText(l: Letter, k: string): (s: string) { if l.escaped then ['\\', l.c] + k else [l.c] + k }

  function RangeText(r: Range, k: string): (s: string) {
    LetterText(r.lo, if r.hi.Some? then ['-'] + LetterText(r.hi.value, k) else k)
  }

  function RangesText(rs: seq<Range>, k: string): (s: string) {
    if rs == [] then k else RangeText(rs[0], RangesText(rs[1..], k))
  }

  /** The pattern made of these elements, in front of `k`. */
  function ElementText(e: Element, k: string): (s: string) {
    match e
    case Star => ['*'] + k
    case One => ['?'] + k
    case Literally(c, escaped) => if escaped then ['\\', c] + k else [c] + k
    case Bracket(negated, mark, ranges) => ['['] + ((if negated then [mark] else "") + RangesText(ranges, [']'] + k))
  }

  function PatternOf(es: seq<Element>): (s: string) {
    if es == [] then "" else ElementText(es[0], PatternOf(es[1..]))
  }

  /** A character without a backslash does not close the brackets or escape. */
  predicate GoodLetter(l: Letter) { l.escaped || (l.c != ']' && l.c != '\\') }

  /** Ranges that are read as written: a single character is not followed by one that begins with a bare `-`. */
  predicate GoodRanges(rs: seq<Range>) {
    forall i :: 0 <= i < |rs| ==>
      GoodLetter(rs[i].lo) && (rs[i].hi.Some? ==> GoodLetter(rs[i].hi.value))
      && (rs[i].hi == None && i + 1 < |rs| ==>
        rs[i + 1].lo != Letter('-', false) || (i + 2 == |rs| && rs[i + 1].hi == None))
  }

  /** With brackets or without, the elements are read as written. */
  predicate GoodElement(e: Element, brackets: bool) {
    match e
    case Literally(c, escaped) => escaped || (c != '*' && c != '?' && c != '\\' && (brackets ==> c != '['))
    case Bracket(negated, mark, ranges) =>
      brackets && GoodRanges(ranges) && (negated ==> mark == '!' || mark == '^')
      && (!negated && ranges != [] ==> ranges[0].lo != Letter('!', false) && ranges[0].lo != Letter('^', false))
    case _ => true
  }

  /** Good elements; a backslash may also stand for itself at the end. */
  predicate Good(es: seq<Element>, brackets: bool) {
    forall i :: 0 <= i < |es| ==> GoodElement(es[i], brackets) || (i + 1 == |es| && es[i] == Literally('\\', false))
  }

  /** A character is in the brackets if one of the ranges holds it. */
  predicate Holds(rs: seq<Range>, c: char) {
    exists i :: 0 <= i < |rs| && rs[i].lo.c <= c <= (if rs[i].hi.Some? then rs[i].hi.value.c else rs[i].lo.c)
  }

  /** What the elements match. */
  ghost predicate Matches(es: seq<Element>, s: string)
    decreases |es|
  {
    if es == [] then s == ""
    else
      match es[0]
      case Star => exists k :: 0 <= k <= |s| && Matches(es[1..], s[k..])
      case One => s != "" && Matches(es[1..], s[1..])
      case Literally(c, _) => s != "" && s[0] == c && Matches(es[1..], s[1..])
      case Bracket(negated, _, ranges) => s != "" && Holds(ranges, s[0]) != negated && Matches(es[1..], s[1..])
  }

  // ---------------------------------------------------------------- the matcher of the expander

  lemma {:induction false} AcceptsElements(es: seq<Element>, s: string)
    requires Good(es, false)
    ensures Accepts(PatternOf(es), s) <==> Matches(es, s)
    decreases |es|
  {
    if es != [] {
      var e, k := es[0], PatternOf(es[1..]);
      var p := ElementText(e, k);
      match e
      case Star =>
        assert p[1..] == k;
        forall j | 0 <= j <= |s| ensures Accepts(k, s[j..]) <==> Matches(es[1..], s[j..]) {
          AcceptsElements(es[1..], s[j..]);
        }
      case One =>
        assert p[1..] == k;
        if s != "" { AcceptsElements(es[1..], s[1..]); }
      case Literally(c, escaped) =>
        if escaped { assert p[1] == c && p[2..] == k; } else { assert p[1..] == k; }
        if s != "" { AcceptsElements(es[1..], s[1..]); }
      case Bracket(_, _, _) =>
    }
  }

  // ---------------------------------------------------------------- bracket expressions

  predicate From(pat: string, i: nat, t: string) { i <= |pat| && pat[i..] == t }

  lemma FromNext(pat: string, i: nat, t: string, k: string, next: nat)
    requires From(pat, i, t + k) && next == i + |t|
    ensures From(pat, next, k) && forall j :: 0 <= j < |t| ==> pat[i + j] == t[j]
  {
    assert pat[next..] == pat[i..][|t|..];
    assert forall j :: 0 <= j < |t| ==> pat[i..][j] == t[j];
  }

  /** A letter is found behind its backslash if it has one. */
  lemma LetterRead(pat: string, i: nat, l: Letter, k: string, at: nat)
    requires From(pat, i, LetterText(l, k)) && GoodLetter(l) && at == i + if l.escaped then 1 else 0
    ensures i < |pat| && EscapedAt(pat, i) == at < |pat| && pat[at] == l.c && From(pat, at + 1, k)
    ensures pat[i] != ']'
  {
    FromNext(pat, i, if l.escaped then ['\\', l.c] else [l.c], k, at + 1);
  }

  /** What follows a single character is no range. */
  predicate NoRange(k: string) { k != "" && (k[0] != '-' || (|k| > 1 && k[1] == ']')) }

  lemma {:induction false} RangesFollow(r: Range, rs: seq<Range>, k: string)
    requires GoodRanges([r] + rs) && r.hi == None
    ensures NoRange(RangesText(rs, [']'] + k))
  {
    var all := [r] + rs;
    if rs != [] {
      assert all[0] == r && all[1] == rs[0];
      if rs[0].lo == Letter('-', false) { assert rs[1..] == []; }
    }
  }

  /** One round of the class scan reads one range. */
  lemma RangeRead(pat: string, i: nat, r: Range, k: string, c: char, m: bool, next: nat)
    requires From(pat, i, RangeText(r, k)) && GoodLetter(r.lo) && (r.hi.Some? ==> GoodLetter(r.hi.value))
    requires r.hi == None ==> NoRange(k)
    requires next == i + |RangeText(r, "")|
    ensures i < next <= |pat| && From(pat, next, k)
    ensures ClassScan(pat, i, c, m)
         == ClassScan(pat, next, c, m || r.lo.c <= c <= (if r.hi.Some? then r.hi.value.c else r.lo.c))
  {
    var lo := i + if r.lo.escaped then 1 else 0;
    if r.hi == None { OneRead(pat, i, r.lo, k, lo); } else { TwoRead(pat, i, r.lo, r.hi.value, k, lo, next - 1); }
    ClassStep(pat, i, lo, next - 1, next, c, m);
  }

  lemma OneRead(pat: string, i: nat, l: Letter, k: string, lo: nat)
    requires From(pat, i, LetterText(l, k)) && GoodLetter(l) && NoRange(k) && lo == i + if l.escaped then 1 else 0
    ensures i <= lo < |pat| && pat[i] != ']' && lo == EscapedAt(pat, i) && RangeEnd(pat, lo) == lo
    ensures pat[lo] == l.c && From(pat, lo + 1, k)
  {
    LetterRead(pat, i, l, k, lo);
    assert pat[lo + 1..][0] == k[0] && (|k| > 1 ==> pat[lo + 1..][1] == k[1]);
  }

  lemma TwoRead(pat: string, i: nat, l: Letter, h: Letter, k: string, lo: nat, hi: nat)
    requires From(pat, i, LetterText(l, ['-'] + LetterText(h, k))) && GoodLetter(l) && GoodLetter(h)
    requires lo == (i + if l.escaped then 1 else 0) && hi == lo + 2 + if h.escaped then 1 else 0
    ensures i <= lo < hi < |pat| && pat[i] != ']' && lo == EscapedAt(pat, i) && RangeEnd(pat, lo) == hi
    ensures pat[lo] == l.c && pat[hi] == h.c && From(pat, hi + 1, k)
  {
    var tail := LetterText(h, k);
    LetterRead(pat, i, l, ['-'] + tail, lo);
    FromNext(pat, lo + 1, ['-'], tail, lo + 2);
    LetterRead(pat, lo + 2, h, k, hi);
    assert pat[lo + 1] == '-';
  }

  lemma ClassStep(pat: string, i: nat, lo: nat, hi: nat, next: nat, c: char, m: bool)
    requires i < |pat| && pat[i] != ']' && lo == EscapedAt(pat, i) && hi == RangeEnd(pat, lo) && next == hi + 1
    ensures ClassScan(pat, i, c, m) == ClassScan(pat, next, c, m || pat[lo] <= c <= pat[hi])
  {
  }

  lemma GoodRest(rs: seq<Range>)
    requires GoodRanges(rs) && rs != []
    ensures GoodRanges(rs[1..]) && GoodLetter(rs[0].lo) && (rs[0].hi.Some? ==> GoodLetter(rs[0].hi.value))
  {
    var rest := rs[1..];
    forall i | 0 <= i < |rest|
      ensures GoodLetter(rest[i].lo) && (rest[i].hi.Some? ==> GoodLetter(rest[i].hi.value))
      ensures rest[i].hi == None && i + 1 < |rest| ==>
        rest[i + 1].lo != Letter('-', false) || (i + 2 == |rest| && rest[i + 1].hi == None)
    {
      var j := i + 1;
      assert rest[i] == rs[j] && (j + 1 < |rs| ==> rest[j] == rs[j + 1]);
    }
  }

  lemma HoldsFirst(rs: seq<Range>, c: char)
    requires rs != []
    ensures Holds(rs, c) <==>
            rs[0].lo.c <= c <= (if rs[0].hi.Some? then rs[0].hi.value.c else rs[0].lo.c) || Holds(rs[1..], c)
  {
    if i :| 0 < i < |rs| && rs[i].lo.c <= c <= (if rs[i].hi.Some? then rs[i].hi.value.c else rs[i].lo.c) {
      assert rs[1..][i - 1] == rs[i];
    }
    if i :| 0 <= i < |rs[1..]| && rs[1..][i].lo.c <= c
         <= (if rs[1..][i].hi.Some? then rs[1..][i].hi.value.c else rs[1..][i].lo.c) {
      assert rs[i + 1] == rs[1..][i];
    }
  }

  /** The class scan finds the closing bracket, and the character if a range holds it. */
  lemma {:induction false} RangesRead(pat: string, i: nat, rs: seq<Range>, k: string, c: char, m: bool, end: nat)
    requires From(pat, i, RangesText(rs, [']'] + k)) && GoodRanges(rs) && end + |k| + 1 == |pat|
    ensures ClassScan(pat, i, c, m) == (end, m || Holds(rs, c)) && pat[end + 1..] == k
    decreases |rs|
  {
    if rs == [] {
      FromNext(pat, i, [']'], k, i + 1);
      assert |pat[i..]| == 1 + |k|;
    } else {
      var r, rest := rs[0], rs[1..];
      var tail, next := RangesText(rest, [']'] + k), i + |RangeText(r, "")|;
      GoodRest(rs);
      assert [r] + rest == rs;
      if r.hi == None { RangesFollow(r, rest, k); }
      RangeRead(pat, i, r, tail, c, m, next);
      var m' := m || r.lo.c <= c <= (if r.hi.Some? then r.hi.value.c else r.lo.c);
      RangesRead(pat, next, rest, k, c, m', end);
      HoldsFirst(rs, c);
    }
  }

  /** A bracket expression takes a character if its ranges hold it, or if they do not and it is negated. */
  lemma BracketRead(e: Element, k: string, c: char)
    requires e.Bracket? && GoodElement(e, true)
    ensures ElementText(e, k)[0] == '['
    ensures ClassRest(ElementText(e, k), c) == if Holds(e.ranges, c) != e.negated then Some(k) else None
  {
    var p, start := ElementText(e, k), if e.negated then 2 else 1;
    BracketStarts(e, k, start);
    ClassRestIs(p, e.negated, start, e.ranges, k, c);
  }

  lemma ClassRestIs(p: string, negated: bool, start: nat, rs: seq<Range>, k: string, c: char)
    requires |p| > 1 && p[0] == '[' && (negated <==> p[1] == '!' || p[1] == '^')
    requires start == (if negated then 2 else 1) && From(p, start, RangesText(rs, [']'] + k)) && GoodRanges(rs)
    ensures ClassRest(p, c) == if Holds(rs, c) != negated then Some(k) else None
  {
    RangesLong(rs, [']'] + k);
    var end := |p| - |k| - 1;
    RangesRead(p, start, rs, k, c, false, end);
  }

  lemma BracketStarts(e: Element, k: string, start: nat)
    requires e.Bracket? && GoodElement(e, true) && start == if e.negated then 2 else 1
    ensures var p := ElementText(e, k);
      |p| > 1 && p[0] == '[' && (e.negated <==> p[1] == '!' || p[1] == '^')
      && From(p, start, RangesText(e.ranges, [']'] + k))
  {
    var p, body := ElementText(e, k), RangesText(e.ranges, [']'] + k);
    assert p[1..] == (if e.negated then [e.mark] else "") + body;
    assert e.negated ==> p[1] == e.mark && p[2..] == body;
    assert !e.negated ==> p[1..] == body;
    if !e.negated { NoMark(e.ranges, k); assert p[1] == body[0]; }
  }

  lemma {:induction false} RangesLong(rs: seq<Range>, k: string)
    ensures |RangesText(rs, k)| >= |k|
  {
    if rs != [] { RangesLong(rs[1..], k); }
  }

  lemma NoMark(rs: seq<Range>, k: string)
    requires GoodRanges(rs) && (rs != [] ==> rs[0].lo != Letter('!', false) && rs[0].lo != Letter('^', false))
    ensures var body := RangesText(rs, [']'] + k); body != "" && body[0] != '!' && body[0] != '^'
  {
  }

  /** The matcher of `case` decides what the elements match. */
  lemma {:induction false} CaseElements(es: seq<Element>, s: string)
    requires Good(es, true)
    ensures AcceptsCase(PatternOf(es), s) <==> Matches(es, s)
    decreases |es|
  {
    if es != [] {
      var e, k := es[0], PatternOf(es[1..]);
      var p := ElementText(e, k);
      match e
      case Star =>
        assert p[1..] == k;
        forall j | 0 <= j <= |s| ensures AcceptsCase(k, s[j..]) <==> Matches(es[1..], s[j..]) {
          CaseElements(es[1..], s[j..]);
        }
      case One =>
        assert p[1..] == k;
        if s != "" { CaseElements(es[1..], s[1..]); }
      case Literally(c, escaped) =>
        if escaped { assert p[1] == c && p[2..] == k; } else { assert p[1..] == k; }
        if s != "" { CaseElements(es[1..], s[1..]); }
      case Bracket(_, _, _) =>
        if s != "" {
          BracketRead(e, k, s[0]);
          CaseElements(es[1..], s[1..]);
        } else {
          BracketRead(e, k, ' ');
        }
    }
  }

  /** A bracket that is not closed matches nothing. */
  lemma UnclosedBracket(pat: string, s: string)
    requires pat != "" && pat[0] == '[' && ']' !in pat
    ensures !AcceptsCase(pat, s)
  {
  }

  // ---------------------------------------------------------------- every pattern has its elements

  lemma {:induction false} ScanAlike(pat: string, i: nat, c: char, m: bool, c': char, m': bool)
    requires i <= |pat|
    ensures ClassScan(pat, i, c, m).0 == ClassScan(pat, i, c', m').0
    decreases |pat| - i
  {
    if i < |pat| && pat[i] != ']' {
      var lo := EscapedAt(pat, i);
      var hi := RangeEnd(pat, lo);
      ScanAlike(pat, hi + 1, c, m || pat[lo] <= c <= pat[hi], c', m' || pat[lo] <= c' <= pat[hi]);
    }
  }

  function LetterAt(pat: string, i: nat): (l: Letter)
    requires i < |pat|
  {
    Letter(pat[EscapedAt(pat, i)], EscapedAt(pat, i) != i)
  }

  lemma LetterTaken(pat: string, i: nat, at: nat, k: string)
    requires i < |pat| && at == EscapedAt(pat, i) && k == pat[at + 1..] && i + 1 < |pat| && pat[i] != ']'
    ensures GoodLetter(LetterAt(pat, i)) && pat[i..] == LetterText(LetterAt(pat, i), k)
    ensures !LetterAt(pat, i).escaped ==> LetterAt(pat, i).c == pat[i]
  {
  }

  function RangeAt(pat: string, i: nat): (r: Range)
    requires i < |pat|
  {
    var lo := EscapedAt(pat, i);
    Range(LetterAt(pat, i), if RangeEnd(pat, lo) == lo then None else Some(LetterAt(pat, lo + 2)))
  }

  /** One round of the class scan before the closing bracket. */
  lemma RangeTaken(pat: string, i: nat, c: char, m: bool, end: nat, lo: nat, next: nat)
    requires i < end < |pat| && ClassScan(pat, i, c, m).0 == end
    requires lo == EscapedAt(pat, i) && next == RangeEnd(pat, lo) + 1
    ensures lo < next <= end && ClassScan(pat, next, c, m).0 == end && pat[i] != ']'
    ensures RangeEnd(pat, lo) != lo ==> lo + 3 < |pat| && pat[lo + 1] == '-' && pat[lo + 2] != ']'
  {
    var hi := next - 1;
    var m' := m || pat[lo] <= c <= pat[hi];
    ClassStep(pat, i, lo, hi, next, c, m);
    ScanAlike(pat, next, c, m', c, m);
    RangeEndsAt(pat, lo, next);
  }

  lemma RangeEndsAt(pat: string, lo: nat, next: nat)
    requires lo < |pat| && next == RangeEnd(pat, lo) + 1 < |pat|
    ensures RangeEnd(pat, lo) != lo ==> lo + 3 < |pat| && pat[lo + 1] == '-' && pat[lo + 2] != ']'
  {
  }

  lemma RangeIs(pat: string, i: nat, lo: nat, next: nat)
    requires i + 1 < |pat| && pat[i] != ']' && lo == EscapedAt(pat, i) && next == RangeEnd(pat, lo) + 1
    requires RangeEnd(pat, lo) != lo ==> lo + 3 < |pat| && pat[lo + 1] == '-' && pat[lo + 2] != ']'
    ensures var r := RangeAt(pat, i); GoodLetter(r.lo) && (r.hi.Some? ==> GoodLetter(r.hi.value))
    ensures pat[i..] == RangeText(RangeAt(pat, i), pat[next..])
    ensures !RangeAt(pat, i).lo.escaped ==> RangeAt(pat, i).lo.c == pat[i]
  {
    var k := pat[lo + 1..];
    LetterTaken(pat, i, lo, k);
    if RangeEnd(pat, lo) != lo {
      var from := lo + 2;
      HighTaken(pat, lo, from, next);
    }
  }

  lemma HighTaken(pat: string, lo: nat, from: nat, next: nat)
    requires from == lo + 2 && from + 1 < |pat| && pat[lo + 1] == '-' && pat[from] != ']'
    requires next == EscapedAt(pat, from) + 1
    ensures GoodLetter(LetterAt(pat, from))
    ensures pat[lo + 1..] == ['-'] + LetterText(LetterAt(pat, from), pat[next..])
  {
    LetterTaken(pat, from, next - 1, pat[next..]);
    assert pat[lo + 1..] == ['-'] + pat[from..];
  }

  /** What the brackets of a closed class hold. */
  lemma {:induction false} RangesTaken(pat: string, i: nat, c: char, m: bool, end: nat) returns (rs: seq<Range>)
    requires i <= end < |pat| && ClassScan(pat, i, c, m).0 == end
    ensures GoodRanges(rs) && pat[i..] == RangesText(rs, pat[end..]) && (rs == [] <==> i == end)
    ensures rs != [] ==> rs[0] == RangeAt(pat, i) && (!rs[0].lo.escaped ==> rs[0].lo.c == pat[i])
    ensures rs != [] && pat[i] == '-' && pat[i + 1] == ']' ==> |rs| == 1 && rs[0].hi == None
    decreases end - i
  {
    if i == end {
      rs := [];
    } else {
      var lo := EscapedAt(pat, i);
      var next := RangeEnd(pat, lo) + 1;
      RangeTaken(pat, i, c, m, end, lo, next);
      RangeIs(pat, i, lo, next);
      var rest := RangesTaken(pat, next, c, m, end);
      rs := [RangeAt(pat, i)] + rest;
      NoRangeTaken(pat, i, lo, next, end, rest);
      GoodMore(rs[0], rest);
    }
  }

  lemma NoRangeTaken(pat: string, i: nat, lo: nat, next: nat, end: nat, rest: seq<Range>)
    requires i < end < |pat| && lo == EscapedAt(pat, i) && next == RangeEnd(pat, lo) + 1 <= end
    requires rest != [] ==> next < end && rest[0] == RangeAt(pat, next)
    requires rest != [] && pat[next] == '-' && pat[next + 1] == ']' ==> |rest| == 1 && rest[0].hi == None
    ensures RangeAt(pat, i).hi == None && rest != [] ==>
      rest[0].lo != Letter('-', false) || (|rest| == 1 && rest[0].hi == None)
  {
  }

  lemma GoodMore(r: Range, rest: seq<Range>)
    requires GoodRanges(rest) && GoodLetter(r.lo) && (r.hi.Some? ==> GoodLetter(r.hi.value))
    requires r.hi == None && rest != [] ==> rest[0].lo != Letter('-', false) || (|rest| == 1 && rest[0].hi == None)
    ensures GoodRanges([r] + rest)
  {
    var rs := [r] + rest;
    forall i | 0 <= i < |rs|
      ensures GoodLetter(rs[i].lo) && (rs[i].hi.Some? ==> GoodLetter(rs[i].hi.value))
      ensures rs[i].hi == None && i + 1 < |rs| ==>
        rs[i + 1].lo != Letter('-', false) || (i + 2 == |rs| && rs[i + 1].hi == None)
    {
      if i > 0 {
        var j := i - 1;
        assert rs[i] == rest[j] && (j + 1 < |rest| ==> rs[i + 1] == rest[j + 1]);
      }
    }
  }

  /** The head of a pattern of `case`: an element and what follows it, or a bracket that is not closed. */
  lemma BracketTaken(pat: string) returns (e: Element, k: string, closed: bool)
    requires pat != "" && pat[0] == '['
    ensures closed ==> e.Bracket? && GoodElement(e, true) && pat == ElementText(e, k) && |k| < |pat|
    ensures !closed ==> forall c :: ClassRest(pat, c) == None
  {
    var negate := |pat| > 1 && (pat[1] == '!' || pat[1] == '^');
    var start := if negate then 2 else 1;
    var end := ClassScan(pat, start, ' ', false).0;
    closed := end < |pat|;
    if closed {
      k := pat[end + 1..];
      e := ClosedBracket(pat, negate, start, end, k);
    } else {
      forall c ensures ClassScan(pat, start, c, false).0 == end { ScanAlike(pat, start, c, false, ' ', false); }
      e, k := One, "";
    }
  }

  lemma ClosedBracket(pat: string, negate: bool, start: nat, end: nat, k: string) returns (e: Element)
    requires pat != "" && pat[0] == '[' && negate == (|pat| > 1 && (pat[1] == '!' || pat[1] == '^'))
    requires start == (if negate then 2 else 1) <= end < |pat| && ClassScan(pat, start, ' ', false).0 == end
    requires k == pat[end + 1..]
    ensures e.Bracket? && GoodElement(e, true) && pat == ElementText(e, k)
  {
    var rs := RangesTaken(pat, start, ' ', false, end);
    var mark := if negate then pat[1] else '!';
    e := Bracket(negate, mark, rs);
    BracketText(pat, negate, mark, start, end, k);
  }

  lemma BracketText(pat: string, negate: bool, mark: char, start: nat, end: nat, k: string)
    requires |pat| > 1 && pat[0] == '[' && (negate ==> mark == pat[1]) && start == (if negate then 2 else 1)
    requires start <= end < |pat| && pat[end] == ']' && k == pat[end + 1..]
    ensures pat[end..] == [']'] + k && pat == ['['] + ((if negate then [mark] else "") + pat[start..])
  {
  }

  lemma LiteralTaken(pat: string, brackets: bool) returns (e: Element, k: string)
    requires pat != "" && pat[0] != '*' && pat[0] != '?' && (brackets ==> pat[0] != '[')
    ensures pat == ElementText(e, k) && (GoodElement(e, brackets) || (k == "" && e == Literally('\\', false)))
    ensures !e.Star? && !e.One? && !e.Bracket? && Literal(pat) == (e.c, k)
  {
    if pat[0] == '\\' && |pat| > 1 {
      e, k := Literally(pat[1], true), pat[2..];
    } else {
      e, k := Literally(pat[0], false), pat[1..];
    }
  }

  lemma GoodFirst(e: Element, es: seq<Element>, brackets: bool)
    requires Good(es, brackets) && (GoodElement(e, brackets) || (es == [] && e == Literally('\\', false)))
    ensures Good([e] + es, brackets) && PatternOf([e] + es) == ElementText(e, PatternOf(es))
  {
    var all := [e] + es;
    forall i | 0 <= i < |all|
      ensures GoodElement(all[i], brackets) || (i + 1 == |all| && all[i] == Literally('\\', false))
    {
      if i > 0 { assert all[i] == es[i - 1]; }
    }
  }

  /** Every pattern of the expander is made of elements. */
  lemma {:induction false} PatternTaken(pat: string) returns (es: seq<Element>)
    ensures Good(es, false) && PatternOf(es) == pat
    decreases |pat|
  {
    if pat == "" {
      es := [];
    } else {
      var e, k := One, pat[1..];
      if pat[0] == '*' { e := Star; } else if pat[0] != '?' { e, k := LiteralTaken(pat, false); }
      var rest := PatternTaken(k);
      es := [e] + rest;
      GoodFirst(e, rest, false);
    }
  }

  /** Every pattern of `case` is made of elements, or matches nothing. */
  lemma {:induction false} CaseTaken(pat: string) returns (es: seq<Element>, made: bool)
    ensures made ==> Good(es, true) && PatternOf(es) == pat
    ensures !made ==> forall s :: !AcceptsCase(pat, s)
    decreases |pat|
  {
    es, made := [], true;
    if pat != "" {
      var e, k := One, pat[1..];
      if pat[0] == '*' {
        e := Star;
      } else if pat[0] == '[' {
        e, k, made := BracketTaken(pat);
      } else if pat[0] != '?' {
        e, k := LiteralTaken(pat, true);
      }
      if made {
        es, made := CaseTaken(k);
        if made { GoodFirst(e, es, true); } else { NothingBehind(pat, e, k); }
        es := [e] + es;
      }
    }
  }

  /** If what follows the first element matches nothing, nor does the whole. */
  lemma NothingBehind(pat: string, e: Element, k: string)
    requires pat == ElementText(e, k) && (GoodElement(e, true) || (k == "" && e == Literally('\\', false)))
    requires forall s :: !AcceptsCase(k, s)
    ensures forall s :: !AcceptsCase(pat, s)
  {
    match e
    case Star => assert pat[1..] == k;
    case One => assert pat[1..] == k;
    case Literally(c, escaped) => if escaped { assert pat[2..] == k; } else { assert pat[1..] == k; }
    case Bracket(_, _, _) => forall c ensures ClassRest(pat, c) in {None, Some(k)} { BracketRead(e, k, c); }
  }

  /** The expander matches by the elements of the pattern, whatever the pattern. */
  lemma ExpanderMatchesIff(pat: string, s: string)
    ensures Accepts(pat, s) <==> exists es :: Good(es, false) && PatternOf(es) == pat && Matches(es, s)
  {
    var es := PatternTaken(pat);
    AcceptsElements(es, s);
    forall es | Good(es, false) && PatternOf(es) == pat && Matches(es, s) ensures Accepts(pat, s) {
      AcceptsElements(es, s);
    }
  }

  /** `case` matches by the elements of the pattern; a pattern with a bracket that is not closed has none. */
  lemma CaseMatchesIff(pat: string, s: string)
    ensures AcceptsCase(pat, s) <==> exists es :: Good(es, true) && PatternOf(es) == pat && Matches(es, s)
  {
    var es, made := CaseTaken(pat);
    if made { CaseElements(es, s); }
    forall es | Good(es, true) && PatternOf(es) == pat && Matches(es, s) ensures AcceptsCase(pat, s) {
      CaseElements(es, s);
    }
  }
}
