/** The grammar of path texts, and the parser of paths against it. */
module ValuePathGrammar {
  import opened Text
  import opened ValuePath
  import opened ValuePathText
  import Numerals

  /** One segment, with at most 127 characters: in brackets anything but `]`, plain anything but `.` and `[`. */
  predicate SegmentIs(t: string, seg: Segment) {
    1 <= |seg.text| <= 127 &&
    if seg.bracketed then t == "[" + seg.text + "]" && ']' !in seg.text
    else t == seg.text && '.' !in t && '[' !in t
  }

  /** Dots up to `n`, a segment from there to `m`, and the end or a dot or a bracket behind a plain one. */
  predicate StartsWithSegment(s: string, n: nat, m: nat, seg: Segment) {
    DotsTo(s, n) && n <= m <= |s| && SegmentIs(s[n..m], seg) && (seg.bracketed || m == |s| || s[m] in ".[")
  }

  /** The dots at the start of `s` end at `n`. */
  predicate DotsTo(s: string, n: nat) {
    n <= |s| && (forall i :: 0 <= i < n ==> s[i] == '.') && (n < |s| ==> s[n] != '.')
  }

  /** The segments of `s`, with any number of dots before and after each. */
  ghost predicate Lists(s: string, path: seq<Segment>)
    decreases |path|
  {
    if path == [] then forall c :: c in s ==> c == '.'
    else exists n: nat, m: nat :: StartsWithSegment(s, n, m, path[0]) && Lists(s[m..], path[1..])
  }

  /** White space of the C locale up to `n` and no further. */
  predicate SpacesTo(s: string, n: nat) {
    n <= |s| && (forall i :: 0 <= i < n ==> s[i] in " \t\n\r" || s[i] as int in {11, 12}) &&
    (n < |s| ==> s[n] !in " \t\n\r" && s[n] as int !in {11, 12})
  }

  /** A path text: white space, then one to 128 segments. */
  ghost predicate IsPathText(s: string, path: seq<Segment>) {
    1 <= |path| <= 128 && exists n: nat :: SpacesTo(s, n) && Lists(s[n..], path)
  }

  // ---------------------------------------------------------------- the scans of the parser

  lemma {:induction false} DotsSkipped(s: string)
    ensures var n := |s| - |SkipDots(s)|; DotsTo(s, n) && SkipDots(s) == s[n..]
  {
    if s != "" && s[0] == '.' {
      DotsSkipped(s[1..]);
      var n := |s| - |SkipDots(s)|;
      assert s[1..][n - 1..] == s[n..];
      forall i | 0 <= i < n ensures s[i] == '.' { assert i > 0 ==> s[i] == s[1..][i - 1]; }
    }
  }

  lemma {:induction false} SpacesSkipped(s: string)
    ensures var n := |s| - |SkipSpaces(s)|; SpacesTo(s, n) && SkipSpaces(s) == s[n..]
  {
    if s != "" { Numerals.SpacesAndDigits(s[0]); }
    if s != "" && IsSpace(s[0]) {
      SpacesSkipped(s[1..]);
      var n := |s| - |SkipSpaces(s)|;
      assert s[1..][n - 1..] == s[n..];
      forall i | 0 <= i < n ensures s[i] in " \t\n\r" || s[i] as int in {11, 12} {
        assert i > 0 ==> s[i] == s[1..][i - 1];
      }
    }
  }

  lemma {:induction false} InsideStops(s: string)
    ensures var n := InsideLength(s); forall i :: 0 <= i < n ==> s[i] != ']'
  {
    if s != "" && s[0] != ']' {
      InsideStops(s[1..]);
      forall i | 0 <= i < InsideLength(s) ensures s[i] != ']' { assert i > 0 ==> s[i] == s[1..][i - 1]; }
    }
  }

  lemma {:induction false} PlainStops(s: string)
    ensures var n := PlainLength(s); forall i :: 0 <= i < n ==> s[i] != '.' && s[i] != '['
    ensures var n := PlainLength(s); n < |s| ==> s[n] == '.' || s[n] == '['
  {
    if s != "" && s[0] != '.' && s[0] != '[' {
      PlainStops(s[1..]);
      forall i | 0 <= i < PlainLength(s) ensures s[i] != '.' && s[i] != '[' { assert i > 0 ==> s[i] == s[1..][i - 1]; }
    }
  }

  /** Where a segment ends at `m`. */
  predicate EndsAt(t: string, m: nat, seg: Segment) {
    m <= |t| && SegmentIs(t[..m], seg) && (seg.bracketed || m == |t| || t[m] in ".[")
  }

  lemma BracketEnds(t: string, m: nat, seg: Segment)
    requires t != "" && t[0] == '[' && m <= |t|
    ensures EndsAt(t, m, seg) <==> NextSegment(t) == Some((seg, t[m..]))
  {
    var n := InsideLength(t[1..]);
    if EndsAt(t, m, seg) {
      BracketFirst(t[..m], seg);
      BracketInside(t, m, seg.text, n);
    }
    if NextSegment(t) == Some((seg, t[m..])) { BracketFound(t, m, seg, n); }
  }

  /** The text up to the bracket that closes is the one inside. */
  lemma BracketInside(t: string, m: nat, inside: string, n: nat)
    requires m <= |t| && t[..m] == "[" + inside + "]" && ']' !in inside && n == InsideLength(t[1..])
    ensures n == |inside| && m == n + 2 && t[1..n + 1] == inside
  {
    var body := t[1..];
    InsideStops(body);
    var k := |inside|;
    forall i | 0 <= i < k ensures body[i] == inside[i] { assert t[..m][i + 1] == inside[i]; }
    assert body[k] == t[..m][k + 1];
    assert forall i :: 0 <= i < k ==> body[i] in inside;
  }

  lemma BracketFound(t: string, m: nat, seg: Segment, n: nat)
    requires t != "" && t[0] == '[' && m <= |t| && n == InsideLength(t[1..])
    requires NextSegment(t) == Some((seg, t[m..]))
    ensures EndsAt(t, m, seg)
  {
    var body := t[1..];
    InsideStops(body);
    assert m == n + 2 && seg == Segment(body[..n], true);
    assert forall i :: 0 <= i < n ==> seg.text[i] == body[i];
    assert t[..m] == "[" + seg.text + "]";
  }

  lemma BracketFirst(t: string, seg: Segment)
    requires SegmentIs(t, seg)
    ensures t != "" && (seg.bracketed ==> t[0] == '[')
  {
  }

  lemma PlainEnds(t: string, m: nat, seg: Segment)
    requires t != "" && t[0] != '.' && t[0] != '[' && m <= |t|
    ensures EndsAt(t, m, seg) <==> NextSegment(t) == Some((seg, t[m..]))
  {
    PlainStops(t);
    var n := PlainLength(t);
    if EndsAt(t, m, seg) {
      BracketFirst(t[..m], seg);
      forall i | 0 <= i < m ensures t[i] != '.' && t[i] != '[' { assert t[..m][i] in t[..m]; }
      assert n == m;
    }
    if NextSegment(t) == Some((seg, t[m..])) { assert m == n; }
  }

  lemma NextEnds(t: string, m: nat, seg: Segment)
    requires t != "" && t[0] != '.' && m <= |t|
    ensures EndsAt(t, m, seg) <==> NextSegment(t) == Some((seg, t[m..]))
  {
    if t[0] == '[' { BracketEnds(t, m, seg); } else { PlainEnds(t, m, seg); }
  }

  // ---------------------------------------------------------------- the parser decides the grammar

  lemma ReadsFirst(s: string, n: nat, m: nat, seg: Segment)
    requires StartsWithSegment(s, n, m, seg)
    ensures SkipDots(s) == s[n..] && s[n..] != "" && NextSegment(s[n..]) == Some((seg, s[m..]))
  {
    DotsSkipped(s);
    assert n == |s| - |SkipDots(s)|;
    assert s[n..m] != "";
    AtSlice(s, n, m);
    NextEnds(s[n..], m - n, seg);
  }

  lemma OnlyDots(s: string)
    requires forall c :: c in s ==> c == '.'
    ensures SkipDots(s) == ""
  {
    DotsSkipped(s);
    var n := |s| - |SkipDots(s)|;
    assert forall i :: 0 <= i < |s| ==> s[i] in s;
  }

  lemma {:induction false} ListsReads(s: string, out: seq<Segment>, path: seq<Segment>)
    requires GoodPath(out) && Lists(s, path) && |out| + |path| <= MAX_SEGMENTS
    ensures Segments(s, out) == Some(out + path)
    decreases |path|
  {
    DotsSkipped(s);
    if path == [] {
      assert out + path == out;
      OnlyDots(s);
    } else {
      var n: nat, m: nat :| StartsWithSegment(s, n, m, path[0]) && Lists(s[m..], path[1..]);
      ReadsFirst(s, n, m, path[0]);
      var out', rest := out + [path[0]], path[1..];
      assert Segments(s, out) == Segments(s[m..], out') by { SegmentsStep(s, s[n..], out, path[0], s[m..]); }
      PathFirst(out, path);
      ListsReads(s[m..], out', rest);
    }
  }

  lemma AtSlice(s: string, n: nat, m: nat)
    requires n <= m <= |s|
    ensures s[n..][..m - n] == s[n..m] && s[n..][m - n..] == s[m..] && (m < |s| ==> s[n..][m - n] == s[m])
  {
  }

  lemma {:induction false} ReadsLists(s: string, out: seq<Segment>) returns (path: seq<Segment>)
    requires GoodPath(out) && Segments(s, out).Some? && |out| <= MAX_SEGMENTS
    ensures Segments(s, out) == Some(out + path) && Lists(s, path) && |out| + |path| <= MAX_SEGMENTS
    decreases |s|
  {
    DotsSkipped(s);
    var t := SkipDots(s);
    var n := |s| - |t|;
    if t == "" {
      path := [];
      assert out + path == out;
      forall c | c in s ensures c == '.' { var i :| 0 <= i < |s| && s[i] == c; }
    } else {
      var (seg, rest) := NextSegment(t).value;
      var m := |s| - |rest|;
      NextIsTail(t);
      assert rest == s[m..];
      AtSlice(s, n, m);
      NextEnds(t, m - n, seg);
      var tail := ReadsLists(rest, out + [seg]);
      path := [seg] + tail;
      SegmentsStep(s, t, out, seg, rest);
      PathFirst(out, path);
      assert StartsWithSegment(s, n, m, path[0]) && path[1..] == tail;
    }
  }

  lemma NextIsTail(t: string)
    requires t != "" && t[0] != '.' && NextSegment(t).Some?
    ensures var rest := NextSegment(t).value.1; t[|t| - |rest|..] == rest
  {
  }

  /** The parser accepts exactly the path texts, and gives the segments that they list. */
  lemma ParsesPathIff(s: string, path: seq<Segment>)
    ensures ParsePath(s) == Some(path) <==> IsPathText(s, path)
  {
    SpacesSkipped(s);
    var t := SkipSpaces(s);
    assert [] + path == path;
    if ParsePath(s) == Some(path) {
      var got := ReadsLists(t, []);
      assert [] + got == got;
      assert SpacesTo(s, |s| - |t|) && Lists(s[|s| - |t|..], path);
    }
    if IsPathText(s, path) {
      var n: nat :| SpacesTo(s, n) && Lists(s[n..], path);
      assert n == |s| - |t|;
      ListsReads(t, [], path);
    }
  }
}
